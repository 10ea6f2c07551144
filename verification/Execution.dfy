/** Executing a transaction: prepaying gas, running the virtual machine, refunding and
    paying the miner, with the gas and the balances accounted for at every step. */
module Execution {
  import opened Bytes
  import opened Lineage
  import opened Ledger

  const TX_GAS := 21000
  const TX_GAS_CONTRACT_CREATION := 53000
  const TX_DATA_ZERO_GAS := 4
  const TX_DATA_NON_ZERO_GAS := 68
  const CREATE_DATA_GAS := 200

  /** `doomed` holds the accounts that have self-destructed in the running transaction; they
      exist, and can be paid, until the state is sealed after it. */
  datatype World = World(balances: Balances, nonces: map<Address, nat>, refund: nat, doomed: set<Address>)

  datatype Msg = Msg(from: Address, to: Option<Address>, nonce: nat, gas: nat, gasPrice: nat, value: nat,
                     data: seq<Byte>)

  /** What one run of the virtual machine did; `returned` is the length of its output, and
      `burned` the balance it destroyed (an account that names itself when it self-destructs). */
  datatype VmRun = VmRun(world: World, gasLeft: nat, failed: bool, returned: nat, burned: nat)

  /** The block a transaction runs in: who mines it, which rules hold, how contract
      addresses are made, and the virtual machine. */
  datatype Env = Env(coinbase: Address, homestead: bool, contractAt: (Address, nat) -> Address,
                     vm: (World, Msg, Address, nat) -> VmRun)

  function NonceOf(w: World, a: Address): (n: nat) {
    if a in w.nonces then w.nonces[a] else 0
  }

  function Pay(w: World, a: Address, v: int): (w': World) {
    w.(balances := Credit(w.balances, a, v))
  }

  function Move(w: World, from: Address, to: Address, v: int): (w': World) {
    Pay(Pay(w, from, -v), to, v)
  }

  lemma {:induction false} MoveKeeps(w: World, from: Address, to: Address, v: int)
    requires NonNegative(w.balances) && 0 <= v <= BalanceOf(w.balances, from)
    ensures Total(Move(w, from, to, v).balances) == Total(w.balances) && NonNegative(Move(w, from, to, v).balances)
  {
    TotalTransfer(w.balances, from, to, v);
  }

  function BumpNonce(w: World, a: Address): (w': World) {
    w.(nonces := w.nonces[a := NonceOf(w, a) + 1])
  }

  /** The virtual machine creates neither gas nor balance, accounts for what it burns,
      leaves no debt and does not touch the sender's nonce. */
  ghost predicate VmLawful(env: Env) {
    forall w, msg, to, gas :: VmStep(w, env.vm(w, msg, to, gas), gas, msg.from)
  }

  ghost predicate VmStep(w: World, r: VmRun, gas: nat, sender: Address) {
    && Total(r.world.balances) + r.burned == Total(w.balances)
    && r.gasLeft <= gas
    && NonceOf(r.world, sender) == NonceOf(w, sender)
    && (NonNegative(w.balances) ==> NonNegative(r.world.balances))
  }

  // ---- Intrinsic gas ----

  function NonZero(data: seq<Byte>): (n: nat)
    ensures n <= |data|
  {
    if data == [] then 0 else NonZero(data[..|data| - 1]) + (if data[|data| - 1] != 0 then 1 else 0)
  }

  function Intrinsic(data: seq<Byte>, creation: bool, homestead: bool): (g: nat) {
    (if creation && homestead then TX_GAS_CONTRACT_CREATION else TX_GAS)
    + NonZero(data) * TX_DATA_NON_ZERO_GAS + (|data| - NonZero(data)) * TX_DATA_ZERO_GAS
  }

  method IntrinsicGas(data: seq<Byte>, creation: bool, homestead: bool) returns (igas: nat)
    ensures igas == Intrinsic(data, creation, homestead)
  {
    igas := if creation && homestead then TX_GAS_CONTRACT_CREATION else TX_GAS;
    if |data| > 0 {
      var nz := 0;
      for i := 0 to |data|
        invariant nz == NonZero(data[..i])
      {
        assert data[..i + 1][..i] == data[..i];
        if data[i] != 0 {
          nz := nz + 1;
        }
      }
      assert data[..|data|] == data;
      igas := igas + nz * TX_DATA_NON_ZERO_GAS;
      igas := igas + (|data| - nz) * TX_DATA_ZERO_GAS;
    }
  }

  /** What one more byte of data costs, and what an empty message costs. */
  lemma {:induction false} IntrinsicSnoc(data: seq<Byte>, b: Byte, creation: bool, homestead: bool)
    ensures Intrinsic([], creation, homestead) == if creation && homestead then 53000 else 21000
    ensures Intrinsic(data + [b], creation, homestead)
            == Intrinsic(data, creation, homestead) + if b == 0 then 4 else 68
  {
    assert (data + [b])[..|data|] == data;
  }

  // ---- The gas pool ----

  class GasPool {
    var gas: nat

    constructor (gas: nat)
      ensures this.gas == gas
    {
      this.gas := gas;
    }

    method AddGas(amount: nat)
      modifies this
      ensures gas == old(gas) + amount
    {
      gas := gas + amount;
    }

    method SubGas(amount: nat) returns (ok: bool)
      modifies this
      ensures ok <==> amount <= old(gas)
      ensures gas == if ok then old(gas) - amount else old(gas)
    {
      if gas < amount {
        return false;
      }
      gas := gas - amount;
      return true;
    }
  }

  // ---- One transaction, as a function ----

  datatype ExecError = NoError | NoFunds | VmFailed | CodeStoreOutOfGas

  datatype TxError = WrongNonce | InsufficientFunds | GasLimitReached | IntrinsicTooLow | CannotTransfer

  /** A world, the gas left in it, how the execution ended, and what it burned. */
  datatype Ran = Ran(world: World, gas: nat, err: ExecError, burned: nat)

  /** `consumed` is the gas gone before the refund, `used` what is charged. */
  datatype TxResult =
    | Applied(world: World, used: nat, consumed: nat, err: ExecError, burned: nat)
    | Refused(error: TxError)

  function Less(a: nat, b: nat): (d: nat) {
    if b <= a then a - b else 0
  }

  /** The code deposit of a successful creation. */
  function Deposit(r: VmRun, create: bool): (o: Ran) {
    if r.failed then Ran(r.world, r.gasLeft, VmFailed, r.burned)
    else if !create then Ran(r.world, r.gasLeft, NoError, r.burned)
    else if r.returned * CREATE_DATA_GAS > r.gasLeft then Ran(r.world, r.gasLeft, CodeStoreOutOfGas, r.burned)
    else Ran(r.world, r.gasLeft - r.returned * CREATE_DATA_GAS, NoError, r.burned)
  }

  predicate Reverts(env: Env, err: ExecError) {
    err == VmFailed || (err == CodeStoreOutOfGas && env.homestead)
  }

  /** Everything after the snapshot: transfer, machine, deposit, and on failure the
      snapshot back with all gas gone. */
  function RunFrom(env: Env, msg: Msg, snapshot: World, to: Address, gas: nat, create: bool): (o: Ran) {
    var o := Deposit(env.vm(Move(snapshot, msg.from, to, msg.value), msg, to, gas), create);
    if Reverts(env, o.err) then Ran(snapshot, 0, o.err, 0) else o
  }

  /** The nonce is bumped before the snapshot: for calls even before the balance test. */
  function Run(env: Env, msg: Msg, w: World, gas: nat): (o: Ran) {
    var funded := BalanceOf(w.balances, msg.from) >= msg.value;
    match msg.to
    case Some(to) =>
      if funded then RunFrom(env, msg, BumpNonce(w, msg.from), to, gas, false)
      else Ran(BumpNonce(w, msg.from), gas, NoFunds, 0)
    case None =>
      if funded then RunFrom(env, msg, BumpNonce(w, msg.from), env.contractAt(msg.from, NonceOf(w, msg.from)), gas,
        true)
      else Ran(w, gas, NoFunds, 0)
  }

  /** What the refund counter is worth: no more than half of what was consumed. */
  function Refund(msg: Msg, o: Ran): (r: nat) {
    var half := Less(msg.gas, o.gas) / 2;
    if half < o.world.refund then half else o.world.refund
  }

  function Settled(env: Env, msg: Msg, o: Ran): (r: TxResult) {
    var left := o.gas + Refund(msg, o);
    var used := Less(msg.gas, left);
    Applied(Pay(Pay(o.world, msg.from, left * msg.gasPrice), env.coinbase, used * msg.gasPrice),
            used, Less(msg.gas, o.gas), o.err, o.burned)
  }

  /** Intrinsic gas, execution, refund and the miner's fee, once the gas is bought. */
  function Paid(env: Env, msg: Msg, w: World): (r: TxResult) {
    var igas := Intrinsic(msg.data, msg.to.None?, env.homestead);
    if msg.gas < igas then Refused(IntrinsicTooLow)
    else
      var o := Run(env, msg, w, msg.gas - igas);
      if o.err == NoFunds then Refused(CannotTransfer) else Settled(env, msg, o)
  }

  /** The whole transition, starting with the nonce check and the gas purchase. */
  function Transact(env: Env, msg: Msg, w: World, poolGas: nat): (r: TxResult) {
    var fee := msg.gas * msg.gasPrice;
    if NonceOf(w, msg.from) != msg.nonce then Refused(WrongNonce)
    else if BalanceOf(w.balances, msg.from) < fee then Refused(InsufficientFunds)
    else if poolGas < msg.gas then Refused(GasLimitReached)
    else Paid(env, msg, Pay(w, msg.from, -fee))
  }

  /** The three tests before the gas is bought, and what follows them. */
  lemma {:induction false} TransactGuards(env: Env, msg: Msg, w: World, poolGas: nat, fee: int)
    requires fee == msg.gas * msg.gasPrice
    ensures Transact(env, msg, w, poolGas) ==
            if NonceOf(w, msg.from) != msg.nonce then Refused(WrongNonce)
            else if BalanceOf(w.balances, msg.from) < fee then Refused(InsufficientFunds)
            else if poolGas < msg.gas then Refused(GasLimitReached)
            else Paid(env, msg, Pay(w, msg.from, -fee))
  {
  }

  /** Refusals that come after the gas was bought; nobody gives that gas back. */
  predicate Late(e: TxError) {
    e == IntrinsicTooLow || e == CannotTransfer
  }

  /** The pool after the transition. */
  function PoolAfter(msg: Msg, poolGas: nat, r: TxResult): (g: nat) {
    match r
    case Applied(_, used, _, _, _) => Less(poolGas, used)
    case Refused(e) => if Late(e) then Less(poolGas, msg.gas) else poolGas
  }

  // ---- What it guarantees ----

  lemma {:induction false} RunFromConserves(env: Env, msg: Msg, w: World, to: Address, gas: nat, create: bool)
    requires VmLawful(env) && NonNegative(w.balances) && msg.value <= BalanceOf(w.balances, msg.from)
    ensures var o := RunFrom(env, msg, w, to, gas, create);
            && o.gas <= gas && NonNegative(o.world.balances) && Total(o.world.balances) + o.burned == Total(w.balances)
            && NonceOf(o.world, msg.from) == NonceOf(w, msg.from) && o.err != NoFunds
  {
    MoveKeeps(w, msg.from, to, msg.value);
    var moved := Move(w, msg.from, to, msg.value);
    assert VmStep(moved, env.vm(moved, msg, to, gas), gas, msg.from);
  }

  lemma {:induction false} RunConserves(env: Env, msg: Msg, w: World, gas: nat)
    requires VmLawful(env) && NonNegative(w.balances)
    ensures var o := Run(env, msg, w, gas);
            && o.gas <= gas && NonNegative(o.world.balances) && Total(o.world.balances) + o.burned == Total(w.balances)
            && (o.err == NoFunds <==> BalanceOf(w.balances, msg.from) < msg.value)
            && (o.err != NoFunds ==> NonceOf(o.world, msg.from) == NonceOf(w, msg.from) + 1)
  {
    if BalanceOf(w.balances, msg.from) >= msg.value {
      var bumped := BumpNonce(w, msg.from);
      match msg.to
      case Some(to) => RunFromConserves(env, msg, bumped, to, gas, false);
      case None => RunFromConserves(env, msg, bumped, env.contractAt(msg.from, NonceOf(w, msg.from)), gas, true);
    }
  }

  lemma {:induction false} SettledConserves(env: Env, msg: Msg, o: Ran)
    requires NonNegative(o.world.balances) && o.gas <= msg.gas
    ensures var r := Settled(env, msg, o);
            && r.consumed == msg.gas - o.gas
            && r.consumed - r.consumed / 2 <= r.used <= r.consumed
            && NonNegative(r.world.balances) && r.world.nonces == o.world.nonces
            && Total(r.world.balances) == Total(o.world.balances) + msg.gas * msg.gasPrice && r.burned == o.burned
  {
    var left := o.gas + Refund(msg, o);
    var used := msg.gas - left;
    Distribute(left, used, msg.gasPrice);
    TotalCredit(o.world.balances, msg.from, left * msg.gasPrice);
    TotalCredit(Credit(o.world.balances, msg.from, left * msg.gasPrice), env.coinbase, used * msg.gasPrice);
  }

  lemma {:induction false} Distribute(a: nat, b: nat, p: nat)
    ensures (a + b) * p == a * p + b * p && a * p >= 0 && b * p >= 0
  {
  }

  /** Of `total` balance and a sender at `nonce`, an applied transaction leaves this. */
  ghost predicate Accounted(env: Env, msg: Msg, total: int, nonce: nat, r: TxResult) {
    r.Applied? ==>
      && Total(r.world.balances) + r.burned == total && NonNegative(r.world.balances)
      && NonceOf(r.world, msg.from) == nonce + 1
      && Intrinsic(msg.data, msg.to.None?, env.homestead) <= r.consumed <= msg.gas
      && r.consumed - r.consumed / 2 <= r.used <= r.consumed
  }

  lemma {:induction false} SettledAccounted(env: Env, msg: Msg, total: int, nonce: nat, o: Ran)
    requires NonNegative(o.world.balances) && Total(o.world.balances) + o.burned == total
    requires o.gas + Intrinsic(msg.data, msg.to.None?, env.homestead) <= msg.gas
    requires NonceOf(o.world, msg.from) == nonce + 1
    ensures Accounted(env, msg, total + msg.gas * msg.gasPrice, nonce, Settled(env, msg, o))
  {
    SettledConserves(env, msg, o);
  }

  /** What an applied transaction settles is a lawful run. */
  lemma {:induction false} PaidRuns(env: Env, msg: Msg, w: World, r: TxResult) returns (o: Ran)
    requires VmLawful(env) && NonNegative(w.balances) && r == Paid(env, msg, w) && r.Applied?
    ensures r == Settled(env, msg, o)
    ensures NonNegative(o.world.balances) && Total(o.world.balances) + o.burned == Total(w.balances)
    ensures o.gas + Intrinsic(msg.data, msg.to.None?, env.homestead) <= msg.gas
    ensures NonceOf(o.world, msg.from) == NonceOf(w, msg.from) + 1
  {
    var gas := msg.gas - Intrinsic(msg.data, msg.to.None?, env.homestead);
    RunConserves(env, msg, w, gas);
    o := Run(env, msg, w, gas);
  }

  lemma {:induction false} PaidConserves(env: Env, msg: Msg, w: World, fee: int, r: TxResult)
    requires VmLawful(env) && NonNegative(w.balances) && r == Paid(env, msg, w) && fee == msg.gas * msg.gasPrice
    ensures Accounted(env, msg, Total(w.balances) + fee, NonceOf(w, msg.from), r)
  {
    if r.Applied? {
      var o := PaidRuns(env, msg, w, r);
      SettledAccounted(env, msg, Total(w.balances), NonceOf(w, msg.from), o);
    }
  }

  /** An applied transaction is what happens after buying the gas. */
  lemma {:induction false} AppliedIsPaid(env: Env, msg: Msg, w: World, poolGas: nat, fee: int)
    requires fee == msg.gas * msg.gasPrice
    ensures var r := Transact(env, msg, w, poolGas);
            r.Applied? ==>
              && r == Paid(env, msg, Pay(w, msg.from, -fee)) && NonceOf(w, msg.from) == msg.nonce
              && fee <= BalanceOf(w.balances, msg.from) && msg.gas <= poolGas
  {
  }

  /** From the purchase on: the prepaid fee comes back in full, to sender and miner. */
  lemma {:induction false} PrepaidConserves(env: Env, msg: Msg, w: World, fee: int, r: TxResult)
    requires VmLawful(env) && NonNegative(w.balances)
    requires fee == msg.gas * msg.gasPrice && fee <= BalanceOf(w.balances, msg.from)
    requires r == Paid(env, msg, Pay(w, msg.from, -fee))
    ensures Accounted(env, msg, Total(w.balances), NonceOf(w, msg.from), r)
  {
    TotalCredit(w.balances, msg.from, -fee);
    PaidConserves(env, msg, Pay(w, msg.from, -fee), fee, r);
  }

  /** An applied transaction preserves the total balance but for what the machine burned, leaves nobody in debt,
      advances the sender's nonce by one however the execution ended, and charges
      between half and all of the gas consumed, which covers the intrinsic gas. */
  lemma {:induction false} TransactConserves(env: Env, msg: Msg, w: World, poolGas: nat)
    requires VmLawful(env) && NonNegative(w.balances)
    ensures var r := Transact(env, msg, w, poolGas);
            r.Applied? ==>
              && Total(r.world.balances) + r.burned == Total(w.balances) && NonNegative(r.world.balances)
              && msg.nonce == NonceOf(w, msg.from) && NonceOf(r.world, msg.from) == msg.nonce + 1
              && Intrinsic(msg.data, msg.to.None?, env.homestead) <= r.consumed <= msg.gas
              && r.consumed - r.consumed / 2 <= r.used <= r.consumed
              && r.used <= poolGas
  {
    var fee := msg.gas * msg.gasPrice;
    var r := Transact(env, msg, w, poolGas);
    AppliedIsPaid(env, msg, w, poolGas, fee);
    if r.Applied? {
      PrepaidConserves(env, msg, w, fee, r);
    }
  }

  /** A reverted run leaves nothing but the bumped nonce, and no gas. */
  lemma {:induction false} RunReverts(env: Env, msg: Msg, w: World, gas: nat)
    ensures var o := Run(env, msg, w, gas);
            Reverts(env, o.err) ==> o.world == BumpNonce(w, msg.from) && o.gas == 0 && o.burned == 0
  {
  }

  lemma {:induction false} PaidRevert(env: Env, msg: Msg, w: World)
    requires w.refund == 0
    ensures var r := Paid(env, msg, w);
            r.Applied? && Reverts(env, r.err) ==>
              && r.used == r.consumed == msg.gas
              && r.world.balances == Credit(Credit(w.balances, msg.from, 0), env.coinbase, msg.gas * msg.gasPrice)
  {
    var igas := Intrinsic(msg.data, msg.to.None?, env.homestead);
    if msg.gas >= igas {
      RunReverts(env, msg, w, msg.gas - igas);
      SettledEmpty(env, msg, Run(env, msg, w, msg.gas - igas));
    }
  }

  lemma {:induction false} SettledEmpty(env: Env, msg: Msg, o: Ran)
    ensures var r := Settled(env, msg, o);
            o.gas == 0 && o.world.refund == 0 ==>
              && r.used == r.consumed == msg.gas
              && r.world.balances == Credit(Credit(o.world.balances, msg.from, 0), env.coinbase, msg.gas * msg.gasPrice)
  {
  }

  lemma {:induction false} NothingBack(b: Balances, from: Address, to: Address, fee: int)
    ensures Credit(Credit(Credit(b, from, -fee), from, 0), to, fee) == Credit(Credit(b, from, -fee), to, fee)
  {
    CreditTwice(b, from, -fee, 0);
  }

  lemma {:induction false} PrepaidRevert(env: Env, msg: Msg, w: World, fee: int, r: TxResult)
    requires w.refund == 0 && fee == msg.gas * msg.gasPrice
    requires r.Applied? && Reverts(env, r.err) && r == Paid(env, msg, Pay(w, msg.from, -fee))
    ensures r.used == r.consumed == msg.gas && r.world.balances == Move(w, msg.from, env.coinbase, fee).balances
  {
    PaidRevert(env, msg, Pay(w, msg.from, -fee));
    NothingBack(w.balances, msg.from, env.coinbase, fee);
  }

  /** A reverted execution costs the sender exactly the whole gas, paid to the miner,
      and moves no other balance. */
  lemma {:induction false} RevertChargesAllGas(env: Env, msg: Msg, w: World, poolGas: nat, fee: int)
    requires w.refund == 0 && fee == msg.gas * msg.gasPrice
    ensures var r := Transact(env, msg, w, poolGas);
            r.Applied? && Reverts(env, r.err) ==>
              && r.used == r.consumed == msg.gas
              && r.world.balances == Move(w, msg.from, env.coinbase, fee).balances
  {
    var r := Transact(env, msg, w, poolGas);
    AppliedIsPaid(env, msg, w, poolGas, fee);
    if r.Applied? && Reverts(env, r.err) {
      PrepaidRevert(env, msg, w, fee, r);
    }
  }

  // ---- Where value and fees go ----

  /** The account a message runs in: the recipient, or the new contract. */
  function Target(env: Env, msg: Msg): (a: Address) {
    match msg.to
    case Some(to) => to
    case None => env.contractAt(msg.from, msg.nonce)
  }

  function If(c: bool, v: int): (r: int) {
    if c then v else 0
  }

  /** The machine is handed the state in which the sender has paid fee and value, the target
      has the value, and the sender's nonce is one higher. */
  ghost predicate HandedOver(env: Env, msg: Msg, w: World, x: World) {
    && (forall a :: BalanceOf(x.balances, a) == BalanceOf(w.balances, a)
          - If(a == msg.from, msg.gas * msg.gasPrice + msg.value) + If(a == Target(env, msg), msg.value))
    && (forall a :: NonceOf(x, a) == NonceOf(w, a) + If(a == msg.from, 1))
    && x.refund == w.refund && x.doomed == w.doomed
  }

  /** A creation whose code cannot be paid for with the gas left. */
  predicate CodeTooDear(msg: Msg, out: VmRun) {
    msg.to.None? && out.returned * 200 > out.gasLeft
  }

  /** What the machine leaves, the sender keeps: its unused gas, less the code deposit. */
  function GasKept(msg: Msg, out: VmRun): (g: nat) {
    if msg.to.None? && !CodeTooDear(msg, out) then out.gasLeft - out.returned * 200 else out.gasLeft
  }

  /** The machine ran, and everything it left stands, but for the deposit. */
  ghost predicate RanThrough(env: Env, msg: Msg, w: World, gas: nat, o: Ran, x: World) {
    var out := env.vm(x, msg, Target(env, msg), gas);
    && !out.failed && (CodeTooDear(msg, out) ==> !env.homestead)
    && o.world == out.world && o.gas == GasKept(msg, out) && o.burned == out.burned
    && o.err == if CodeTooDear(msg, out) then CodeStoreOutOfGas else NoError
  }

  lemma {:induction false} MoveEffect(w: World, from: Address, to: Address, v: int, a: Address)
    ensures BalanceOf(Move(w, from, to, v).balances, a) == BalanceOf(w.balances, a) - If(a == from, v) + If(a == to, v)
  {
  }

  lemma {:induction false} HandOver(env: Env, msg: Msg, w: World, fee: int) returns (x: World)
    requires NonceOf(w, msg.from) == msg.nonce && fee == msg.gas * msg.gasPrice
    ensures x == Move(BumpNonce(Pay(w, msg.from, -fee), msg.from), msg.from, Target(env, msg), msg.value)
    ensures HandedOver(env, msg, w, x)
  {
    var paid := Pay(w, msg.from, -fee);
    var bumped := BumpNonce(paid, msg.from);
    x := Move(bumped, msg.from, Target(env, msg), msg.value);
    forall a
      ensures BalanceOf(x.balances, a) == BalanceOf(w.balances, a) - If(a == msg.from, fee + msg.value)
                                          + If(a == Target(env, msg), msg.value)
    {
      MoveEffect(bumped, msg.from, Target(env, msg), msg.value, a);
    }
  }

  /** A run either reverts because the machine failed, or a Homestead creation cannot pay for
      its code; or it goes through. */
  lemma {:induction false} RunOutcome(env: Env, msg: Msg, p: World, gas: nat, x: World)
    requires BalanceOf(p.balances, msg.from) >= msg.value && NonceOf(p, msg.from) == msg.nonce
    requires x == Move(BumpNonce(p, msg.from), msg.from, Target(env, msg), msg.value)
    ensures var o, out := Run(env, msg, p, gas), env.vm(x, msg, Target(env, msg), gas);
            if out.failed || (env.homestead && CodeTooDear(msg, out))
            then o == Ran(BumpNonce(p, msg.from), 0, if out.failed then VmFailed else CodeStoreOutOfGas, 0)
            else RanThrough(env, msg, p, gas, o, x)
  {
  }

  /** An applied message was handed to the machine with its value at the target. */
  lemma {:induction false} AppliedRan(env: Env, msg: Msg, w: World, poolGas: nat) returns (x: World, o: Ran)
    requires Transact(env, msg, w, poolGas).Applied?
    ensures HandedOver(env, msg, w, x)
    ensures Transact(env, msg, w, poolGas) == Settled(env, msg, o)
    ensures var gas := msg.gas - Intrinsic(msg.data, msg.to.None?, env.homestead);
            var out := env.vm(x, msg, Target(env, msg), if gas >= 0 then gas else 0);
            && gas >= 0
            && (if out.failed || (env.homestead && CodeTooDear(msg, out))
                then o.world == BumpNonce(Pay(w, msg.from, -(msg.gas * msg.gasPrice)), msg.from) && o.gas == 0
                     && Reverts(env, o.err)
                else RanThrough(env, msg, w, gas, o, x))
  {
    var fee := msg.gas * msg.gasPrice;
    AppliedIsPaid(env, msg, w, poolGas, fee);
    var paid := Pay(w, msg.from, -fee);
    x := HandOver(env, msg, w, fee);
    o := PaidOutcome(env, msg, paid, x);
  }

  lemma {:induction false} PaidOutcome(env: Env, msg: Msg, p: World, x: World) returns (o: Ran)
    requires Paid(env, msg, p).Applied? && NonceOf(p, msg.from) == msg.nonce
    requires x == Move(BumpNonce(p, msg.from), msg.from, Target(env, msg), msg.value)
    ensures Paid(env, msg, p) == Settled(env, msg, o)
    ensures var gas := msg.gas - Intrinsic(msg.data, msg.to.None?, env.homestead);
            var out := env.vm(x, msg, Target(env, msg), if gas >= 0 then gas else 0);
            && gas >= 0
            && (if out.failed || (env.homestead && CodeTooDear(msg, out))
                then o.world == BumpNonce(p, msg.from) && o.gas == 0 && Reverts(env, o.err)
                else RanThrough(env, msg, p, gas, o, x))
  {
    var gas := msg.gas - Intrinsic(msg.data, msg.to.None?, env.homestead);
    NoFundsIff(env, msg, p, gas);
    RunOutcome(env, msg, p, gas, x);
    o := Run(env, msg, p, gas);
  }

  /** Settling gives the sender the price of the unused gas and the miner that of the rest;
      the refund is the counter, or half of what was consumed if that is less. */
  lemma {:induction false} SettledEffect(env: Env, msg: Msg, o: Ran, a: Address)
    requires o.gas <= msg.gas
    ensures var r := Settled(env, msg, o);
            && r.consumed == msg.gas - o.gas && 0 <= r.consumed - r.used <= r.consumed / 2
            && r.consumed - r.used <= o.world.refund
            && (r.consumed - r.used == o.world.refund || r.consumed - r.used == r.consumed / 2)
            && BalanceOf(r.world.balances, a) == BalanceOf(o.world.balances, a)
               + If(a == msg.from, (msg.gas - r.used) * msg.gasPrice) + If(a == env.coinbase, r.used * msg.gasPrice)
            && r.world.nonces == o.world.nonces && r.err == o.err && r.burned == o.burned
  {
  }

  /** The effect on every account of a message that the machine runs through: value to the
      target, the price of the gas used from sender to miner, and what the machine does in
      between, starting from the state in which the value has arrived. It reverts exactly when
      the machine fails, or under Homestead a new contract's code cannot be paid for. */
  lemma {:induction false} AppliedEffect(env: Env, msg: Msg, w: World, poolGas: nat) returns (x: World)
    requires VmLawful(env) && Transact(env, msg, w, poolGas).Applied?
    ensures HandedOver(env, msg, w, x)
    ensures var r := Transact(env, msg, w, poolGas);
            var gas := msg.gas - Intrinsic(msg.data, msg.to.None?, env.homestead);
            && gas >= 0
            && var out := env.vm(x, msg, Target(env, msg), gas);
               && (Reverts(env, r.err) <==> out.failed || (env.homestead && CodeTooDear(msg, out)))
               && (!Reverts(env, r.err) ==>
                 && r.consumed == msg.gas - GasKept(msg, out) && r.burned == out.burned
                 && (r.consumed - r.used == out.world.refund || r.consumed - r.used == r.consumed / 2)
                 && (forall a :: BalanceOf(r.world.balances, a) == BalanceOf(out.world.balances, a)
                       + If(a == msg.from, (msg.gas - r.used) * msg.gasPrice)
                       + If(a == env.coinbase, r.used * msg.gasPrice)))
  {
    var o;
    x, o := AppliedRan(env, msg, w, poolGas);
    var gas := msg.gas - Intrinsic(msg.data, msg.to.None?, env.homestead);
    var out := env.vm(x, msg, Target(env, msg), gas);
    assert VmStep(x, out, gas, msg.from);
    if !out.failed && !(env.homestead && CodeTooDear(msg, out)) {
      forall a
        ensures BalanceOf(Settled(env, msg, o).world.balances, a) == BalanceOf(out.world.balances, a)
                + If(a == msg.from, (msg.gas - Settled(env, msg, o).used) * msg.gasPrice)
                + If(a == env.coinbase, Settled(env, msg, o).used * msg.gasPrice)
      {
        SettledEffect(env, msg, o, a);
      }
      SettledEffect(env, msg, o, 0);
    }
  }

  /** The machine runs through without failing and leaves balances and code alone. */
  ghost predicate Inert(env: Env) {
    forall w, msg, to, gas ::
      var out := env.vm(w, msg, to, gas);
      out.world.balances == w.balances && !out.failed && out.returned == 0
  }

  lemma {:induction false} FeeSplit(gas: nat, used: nat, price: nat)
    requires used <= gas
    ensures gas * price - (gas - used) * price == used * price
  {
    Distribute(gas - used, used, price);
  }

  /** With an inert machine an applied message moves exactly the value from sender to target
      and the price of the gas used from sender to miner, whoever they are. */
  lemma {:induction false} ValueArrives(env: Env, msg: Msg, w: World, poolGas: nat, a: Address)
    requires VmLawful(env) && Inert(env) && Transact(env, msg, w, poolGas).Applied?
    ensures var r := Transact(env, msg, w, poolGas);
            BalanceOf(r.world.balances, a) == BalanceOf(w.balances, a)
            - If(a == msg.from, msg.value + r.used * msg.gasPrice)
            + If(a == Target(env, msg), msg.value) + If(a == env.coinbase, r.used * msg.gasPrice)
  {
    var r := Transact(env, msg, w, poolGas);
    var x := AppliedEffect(env, msg, w, poolGas);
    var gas := msg.gas - Intrinsic(msg.data, msg.to.None?, env.homestead);
    var out := env.vm(x, msg, Target(env, msg), gas);
    assert out.world.balances == x.balances && !CodeTooDear(msg, out);
    assert VmStep(x, out, gas, msg.from);
    FeeSplit(msg.gas, r.used, msg.gasPrice);
  }

  /** The pool only decides whether there is room: with room, it does not matter how much. */
  lemma {:induction false} PoolOnlyGates(env: Env, msg: Msg, w: World, poolGas: nat, bigger: nat)
    requires Transact(env, msg, w, poolGas).Applied? && poolGas <= bigger
    ensures Transact(env, msg, w, bigger) == Transact(env, msg, w, poolGas)
  {
  }

  lemma {:induction false} NoFundsIff(env: Env, msg: Msg, w: World, gas: nat)
    ensures Run(env, msg, w, gas).err == NoFunds <==> BalanceOf(w.balances, msg.from) < msg.value
  {
  }

  /** Which test each refusal is about, and which were passed before it. */
  lemma {:induction false} FirstRefused(env: Env, msg: Msg, w: World, poolGas: nat, fee: int)
    requires fee == msg.gas * msg.gasPrice
    ensures var r := Transact(env, msg, w, poolGas);
            var timely := NonceOf(w, msg.from) == msg.nonce;
            var paid := BalanceOf(w.balances, msg.from) >= fee;
            var fits := msg.gas <= poolGas;
            var enough := msg.gas >= Intrinsic(msg.data, msg.to.None?, env.homestead);
            var covered := BalanceOf(w.balances, msg.from) >= fee + msg.value;
            && (r == Refused(WrongNonce) <==> !timely)
            && (r == Refused(InsufficientFunds) <==> timely && !paid)
            && (r == Refused(GasLimitReached) <==> timely && paid && !fits)
            && (r == Refused(IntrinsicTooLow) <==> timely && paid && fits && !enough)
            && (r == Refused(CannotTransfer) <==> timely && paid && fits && enough && !covered)
            && (r.Applied? <==> timely && fits && enough && covered)
  {
    var igas := Intrinsic(msg.data, msg.to.None?, env.homestead);
    if msg.gas >= igas {
      NoFundsIff(env, msg, Pay(w, msg.from, -fee), msg.gas - igas);
    }
  }

  /** The guards a transaction passes before it is refused with its gas already bought. */
  ghost predicate LeakGuard(env: Env, msg: Msg, w: World, poolGas: nat) {
    var fee := msg.gas * msg.gasPrice;
    && msg.gas > 0 && NonceOf(w, msg.from) == msg.nonce && fee <= BalanceOf(w.balances, msg.from) && msg.gas <= poolGas
    && (msg.gas < Intrinsic(msg.data, msg.to.None?, env.homestead) || BalanceOf(w.balances, msg.from) - fee < msg.value)
  }

  /** A refused transaction takes gas out of the pool exactly when it passes these guards. */
  lemma {:induction false} LeaksIff(env: Env, msg: Msg, w: World, poolGas: nat)
    ensures var r := Transact(env, msg, w, poolGas);
            && (r.Refused? && PoolAfter(msg, poolGas, r) < poolGas <==> LeakGuard(env, msg, w, poolGas))
            && (r.Refused? && Late(r.error) && msg.gas > 0 <==> LeakGuard(env, msg, w, poolGas))
  {
    var fee := msg.gas * msg.gasPrice;
    var paid := Pay(w, msg.from, -fee);
    assert BalanceOf(paid.balances, msg.from) == BalanceOf(w.balances, msg.from) - fee;
    var igas := Intrinsic(msg.data, msg.to.None?, env.homestead);
    if msg.gas >= igas {
      NoFundsIff(env, msg, paid, msg.gas - igas);
    }
  }

  /** A free transaction with one unit of gas is refused and its gas is gone from the pool. */
  lemma {:induction false} LeakExample(env: Env, poolGas: nat)
    requires poolGas > 0
    ensures var msg, w := Msg(7, Some(8), 0, 1, 0, 0, []), World(map[], map[], 0, {});
            var r := Transact(env, msg, w, poolGas);
            r == Refused(IntrinsicTooLow) && PoolAfter(msg, poolGas, r) == poolGas - 1
  {
    var data: seq<Byte> := [];
    assert Intrinsic(data, false, env.homestead) == TX_GAS;
  }

  // ---- The same transition, updating the pool and the state step by step ----

  class Transition {
    const env: Env
    const msg: Msg
    const pool: GasPool

    var world: World
    var gas: nat
    var initialGas: nat
    /** What the machine destroyed, for the accounting. */
    var burned: nat

    constructor (env: Env, msg: Msg, pool: GasPool, world: World)
      ensures this.env == env && this.msg == msg && this.pool == pool && this.world == world
      ensures gas == 0 && initialGas == 0 && burned == 0
    {
      this.env, this.msg, this.pool, this.world, gas, initialGas, burned := env, msg, pool, world, 0, 0, 0;
    }

    /** Runs the call or creation; the caller of a call has already bumped the nonce. */
    method Exec(create: bool, target: Address) returns (err: ExecError)
      requires burned == 0
      modifies this`world, this`gas, this`burned
      ensures var w := old(world);
              var funded := BalanceOf(w.balances, msg.from) >= msg.value;
              var start := if create then BumpNonce(w, msg.from) else w;
              var to := if create then env.contractAt(msg.from, NonceOf(w, msg.from)) else target;
              Ran(world, gas, err, burned) ==
              if funded then RunFrom(env, msg, start, to, old(gas), create) else Ran(w, old(gas), NoFunds, 0)
    {
      if BalanceOf(world.balances, msg.from) < msg.value {
        return NoFunds;
      }
      var to := target;
      if create {
        var nonce := NonceOf(world, msg.from);
        world := BumpNonce(world, msg.from);
        to := env.contractAt(msg.from, nonce);
      }
      var snapshot := world;
      world := Pay(world, msg.from, -(msg.value as int));
      world := Pay(world, to, msg.value);
      var run := env.vm(world, msg, to, gas);
      world, gas, burned := run.world, run.gasLeft, run.burned;
      err := if run.failed then VmFailed else NoError;
      if err == NoError && create {
        var dataGas := run.returned * CREATE_DATA_GAS;
        if dataGas <= gas {
          gas := gas - dataGas;
        } else {
          err := CodeStoreOutOfGas;
        }
      }
      if err != NoError && (env.homestead || err != CodeStoreOutOfGas) {
        gas, burned := 0, 0;
        world := snapshot;
      }
    }

    /** Buys all the message's gas up front. */
    method BuyGas() returns (err: Option<TxError>)
      modifies this`world, this`gas, this`initialGas, pool
      ensures var fee := msg.gas * msg.gasPrice;
              && (err == Some(InsufficientFunds) <==> BalanceOf(old(world.balances), msg.from) < fee)
              && (err == Some(GasLimitReached)
                 <==> BalanceOf(old(world.balances), msg.from) >= fee && old(pool.gas) < msg.gas)
              && (err.Some? ==>
                    && err.value in {InsufficientFunds, GasLimitReached}
                    && world == old(world) && pool.gas == old(pool.gas))
              && (err.None? ==> world == Pay(old(world), msg.from, -fee) && gas == old(gas) + msg.gas
                                && initialGas == msg.gas && pool.gas == old(pool.gas) - msg.gas)
    {
      var mgval := msg.gas * msg.gasPrice;
      if BalanceOf(world.balances, msg.from) < mgval {
        return Some(InsufficientFunds);
      }
      var ok := pool.SubGas(msg.gas);
      if !ok {
        return Some(GasLimitReached);
      }
      gas := gas + msg.gas;
      initialGas := msg.gas;
      world := Pay(world, msg.from, -mgval);
      return None;
    }

    /** Returns the remaining gas and the capped refund to the sender and the pool. */
    method RefundGas()
      requires gas <= initialGas == msg.gas
      modifies this`world, this`gas, pool
      ensures var o := old(Ran(world, gas, NoError, burned));
              && gas == o.gas + Refund(msg, o) <= msg.gas
              && world == Pay(o.world, msg.from, gas * msg.gasPrice)
              && pool.gas == old(pool.gas) + gas
    {
      var remaining := gas * msg.gasPrice;
      world := Pay(world, msg.from, remaining);
      var uhalf := (initialGas - gas) / 2;
      var refund := if uhalf < world.refund then uhalf else world.refund;
      Distribute(gas, refund, msg.gasPrice);
      CreditTwice(old(world.balances), msg.from, remaining, refund * msg.gasPrice);
      gas := gas + refund;
      world := Pay(world, msg.from, refund * msg.gasPrice);
      pool.AddGas(gas);
    }

    /** Dispatches to contract creation or to a call. */
    method Execute() returns (err: ExecError)
      requires burned == 0
      modifies this`world, this`gas, this`burned
      ensures Ran(world, gas, err, burned) == Run(env, msg, old(world), old(gas))
    {
      if msg.to.None? {
        err := Exec(true, 0);
        if env.homestead && err == CodeStoreOutOfGas {
          gas := 0;
        }
      } else {
        world := BumpNonce(world, msg.from);
        err := Exec(false, msg.to.value);
      }
    }

    /** Refunds the sender and pays the miner for what was used. */
    method Settle(err: ExecError) returns (r: TxResult)
      requires gas <= initialGas == msg.gas
      modifies this`world, this`gas, pool
      ensures r == Settled(env, msg, old(Ran(world, gas, err, burned)))
      ensures world == r.world && pool.gas + r.used == old(pool.gas) + msg.gas
    {
      var consumed := initialGas - gas;
      RefundGas();
      var used := initialGas - gas;
      world := Pay(world, env.coinbase, used * msg.gasPrice);
      return Applied(world, used, consumed, err, burned);
    }

    /** The stages after the gas has been bought. */
    method ApplyPaid() returns (r: TxResult)
      requires VmLawful(env) && NonNegative(world.balances) && gas == initialGas == msg.gas && burned == 0
      modifies this`world, this`gas, this`burned, pool
      ensures r == Paid(env, msg, old(world))
      ensures r.Applied? ==> world == r.world && pool.gas + r.used == old(pool.gas) + msg.gas
      ensures r.Refused? ==> pool.gas == old(pool.gas) && Late(r.error)
    {
      var igas := IntrinsicGas(msg.data, msg.to.None?, env.homestead);
      if gas < igas {
        return Refused(IntrinsicTooLow);
      }
      gas := gas - igas;
      RunConserves(env, msg, world, gas);
      var err := Execute();
      if err == NoFunds {
        return Refused(CannotTransfer);
      }
      r := Settle(err);
    }

    /** The nonce test and the purchase of the gas. */
    method PreCheck() returns (err: Option<TxError>)
      requires gas == 0
      modifies this`world, this`gas, this`initialGas, pool
      ensures var fee := msg.gas * msg.gasPrice;
              match err
              case Some(e) => Transact(env, msg, old(world), old(pool.gas)) == Refused(e) && !Late(e)
                && pool.gas == old(pool.gas)
              case None => && Transact(env, msg, old(world), old(pool.gas)) == Paid(env, msg, world)
                           && world == Pay(old(world), msg.from, -fee)
                              && fee <= BalanceOf(old(world.balances), msg.from)
                           && gas == initialGas == msg.gas && pool.gas == old(pool.gas) - msg.gas
    {
      ghost var w, room := world, pool.gas;
      TransactGuards(env, msg, w, room, msg.gas * msg.gasPrice);
      if NonceOf(world, msg.from) != msg.nonce {
        return Some(WrongNonce);
      }
      err := BuyGas();
    }

    method TransitionDb() returns (r: TxResult)
      requires VmLawful(env) && NonNegative(world.balances)
      requires gas == 0 && initialGas == 0 && burned == 0
      modifies this, pool
      ensures r == Transact(env, msg, old(world), old(pool.gas))
      ensures pool.gas == PoolAfter(msg, old(pool.gas), r)
      ensures r.Applied? ==> world == r.world && pool.gas + r.used == old(pool.gas)
    {
      var err := PreCheck();
      if err.Some? {
        return Refused(err.value);
      }
      r := ApplyPaid();
    }
  }
}
