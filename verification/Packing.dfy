/** Filling a block with transactions on the mining side, and why every other node
    that processes the block reaches the same state. */
module Packing {
  import opened Lineage
  import opened Ledger
  import opened Execution
  import opened Processor

  /** What happened to one of the transactions offered: in the block, set aside with an
      underpaying sender, skipped with a sender that waits, or turned down. */
  datatype Outcome = Committed | SetAside | Waits | Turned(error: TxError)

  /** The work so far, with the gas left in the pool and the outcome of every transaction. */
  datatype Packed = Packed(progress: Progress, txs: seq<Msg>, poolGas: nat, low: set<Address>, ignored: set<Address>,
                           lowTxs: seq<Msg>, remove: set<Msg>, outcomes: seq<Outcome>)

  predicate Cheap(owned: set<Address>, gasPrice: nat, tx: Msg) {
    tx.gasPrice < gasPrice && tx.from !in owned
  }

  // ---- Packing as a function ----

  /** Tries one transaction whose sender is neither underpaying nor waiting. */
  ghost function Attempted(env: Env, k: Packed, tx: Msg): (k': Packed) {
    match Extended(env, k.progress, tx, k.poolGas)
    case Done(p) =>
      k.(progress := p, txs := k.txs + [tx], poolGas := Less(k.poolGas + k.progress.used, p.used),
        outcomes := k.outcomes + [Committed])
    case Failed(e) =>
      k.(poolGas := PoolAfter(tx, k.poolGas, Refused(e)),
         ignored := k.ignored + (if e == GasLimitReached then {tx.from} else {}),
         remove := k.remove + (if e == GasLimitReached then {} else {tx}),
         outcomes := k.outcomes + [Turned(e)])
  }

  ghost function Considered(env: Env, owned: set<Address>, gasPrice: nat, k: Packed, tx: Msg): (k': Packed) {
    var low := k.low + if Cheap(owned, gasPrice, tx) then {tx.from} else {};
    if tx.from in low then
      k.(low := low, lowTxs := k.lowTxs + (if tx.from in owned then [] else [tx]), outcomes := k.outcomes + [SetAside])
    else if tx.from in k.ignored then k.(outcomes := k.outcomes + [Waits])
    else Attempted(env, k, tx)
  }

  /** Everything offered, in order, from a fresh start. */
  ghost function PackedUp(env: Env, owned: set<Address>, gasPrice: nat, w: World, gasLimit: nat,
                          txs: seq<Msg>): (k: Packed) {
    if txs == [] then Packed(Progress(w, [], 0, 0), [], gasLimit, {}, {}, [], {}, [])
    else Considered(env, owned, gasPrice, PackedUp(env, owned, gasPrice, w, gasLimit, txs[..|txs| - 1]), txs[|txs| - 1])
  }

  // ---- The committed transactions replay ----

  /** A transaction that fits the miner's smaller pool fits the full one, with the same outcome. */
  lemma {:induction false} ExtendedGates(env: Env, p: Progress, tx: Msg, poolGas: nat, bigger: nat)
    requires poolGas <= bigger && Extended(env, p, tx, poolGas).Done?
    ensures Extended(env, p, tx, bigger) == Extended(env, p, tx, poolGas)
  {
    PoolOnlyGates(env, tx, p.world, poolGas, bigger);
  }

  /** What a transaction with this outcome takes from the pool without using it. */
  ghost function LeakOf(tx: Msg, o: Outcome): (g: nat) {
    if o.Turned? && Late(o.error) then tx.gas else 0
  }

  /** The committed transactions, run from `w`, give the progress of `k`. */
  ghost predicate Replays(env: Env, k: Packed, w: World, gasLimit: nat) {
    Executed(env, k.txs, w, gasLimit) == Done(k.progress) && Sound(k.progress, w)
  }

  /** Between `k` and `k'` the transaction `tx` had outcome `o`, and the gas adds up. */
  ghost predicate Spent(k: Packed, tx: Msg, o: Outcome, k': Packed) {
    && k'.outcomes == k.outcomes + [o]
    && k'.poolGas + k'.progress.used + LeakOf(tx, o) == k.poolGas + k.progress.used
  }

  lemma {:induction false} AttemptReplays(env: Env, k: Packed, tx: Msg, w: World, gasLimit: nat)
    requires VmLawful(env) && Replays(env, k, w, gasLimit) && k.poolGas + k.progress.used <= gasLimit
    ensures Replays(env, Attempted(env, k, tx), w, gasLimit)
  {
    ExtendedSound(env, k.progress, tx, w, k.poolGas);
    if Extended(env, k.progress, tx, k.poolGas).Done? {
      var room := gasLimit - k.progress.used;
      ExtendedGates(env, k.progress, tx, k.poolGas, room);
      ExecutedSnoc(env, k.txs, tx, w, gasLimit, k.progress, room);
    }
  }

  lemma {:induction false} AttemptAccounts(env: Env, k: Packed, tx: Msg) returns (o: Outcome)
    requires VmLawful(env) && NonNegative(k.progress.world.balances)
    ensures Spent(k, tx, o, Attempted(env, k, tx))
  {
    TransactConserves(env, tx, k.progress.world, k.poolGas);
    var s := Extended(env, k.progress, tx, k.poolGas);
    o := if s.Done? then Committed else Turned(s.error);
  }

  /** A transaction that is not tried leaves block and pool alone. */
  lemma {:induction false} SkipReplays(env: Env, k: Packed, tx: Msg, o: Outcome, k': Packed, w: World, gasLimit: nat)
    requires Replays(env, k, w, gasLimit) && (o == SetAside || o == Waits)
    requires k'.progress == k.progress && k'.txs == k.txs && k'.poolGas == k.poolGas && k'.outcomes == k.outcomes + [o]
    ensures Replays(env, k', w, gasLimit) && Spent(k, tx, o, k')
  {
  }

  /** The gas bought by those transactions that were turned down afterwards. */
  ghost function Leaked(txs: seq<Msg>, outs: seq<Outcome>): (g: nat) {
    if txs == [] || outs == [] then 0
    else Leaked(txs[..|txs| - 1], outs[..|outs| - 1]) + LeakOf(txs[|txs| - 1], outs[|outs| - 1])
  }

  /** The transactions with a given outcome, in order. */
  ghost function Picked(txs: seq<Msg>, outs: seq<Outcome>, o: Outcome): (r: seq<Msg>) {
    if txs == [] || outs == [] then []
    else Picked(txs[..|txs| - 1], outs[..|outs| - 1], o) + if outs[|outs| - 1] == o then [txs[|txs| - 1]] else []
  }

  lemma {:induction false} LastStep(txs: seq<Msg>, outs: seq<Outcome>, tx: Msg, last: Outcome, o: Outcome)
    ensures Leaked(txs + [tx], outs + [last]) == Leaked(txs, outs) + LeakOf(tx, last)
    ensures Picked(txs + [tx], outs + [last], o) == Picked(txs, outs, o) + if last == o then [tx] else []
  {
    assert (txs + [tx])[..|txs|] == txs && (outs + [last])[..|outs|] == outs;
  }

  /** The committed transactions, processed from the same state as any block is, give the
      miner's state, receipts and gas; what the pool lacks beyond the gas used is exactly
      the gas of the transactions turned down late. */
  lemma {:induction false} PackReplays(env: Env, owned: set<Address>, gasPrice: nat, w: World, gasLimit: nat,
                                       txs: seq<Msg>)
    requires VmLawful(env) && NonNegative(w.balances) && w.refund == 0
    ensures var k := PackedUp(env, owned, gasPrice, w, gasLimit, txs);
            && Executed(env, k.txs, w, gasLimit) == Done(k.progress) && Sound(k.progress, w)
            && |k.outcomes| == |txs| && k.poolGas + k.progress.used + Leaked(txs, k.outcomes) == gasLimit
  {
    if txs != [] {
      var init, tx := txs[..|txs| - 1], txs[|txs| - 1];
      PackReplays(env, owned, gasPrice, w, gasLimit, init);
      var k := PackedUp(env, owned, gasPrice, w, gasLimit, init);
      var o := StepReplays(env, owned, gasPrice, k, tx, w, gasLimit);
      LastStep(init, k.outcomes, tx, o, Committed);
      SplitLast(txs);
    }
  }

  lemma {:induction false} StepReplays(env: Env, owned: set<Address>, gasPrice: nat, k: Packed, tx: Msg, w: World,
                                       gasLimit: nat)
    returns (o: Outcome)
    requires VmLawful(env) && Replays(env, k, w, gasLimit) && k.poolGas + k.progress.used <= gasLimit
    ensures var k' := Considered(env, owned, gasPrice, k, tx); Replays(env, k', w, gasLimit) && Spent(k, tx, o, k')
  {
    var k' := Considered(env, owned, gasPrice, k, tx);
    var low := k.low + if Cheap(owned, gasPrice, tx) then {tx.from} else {};
    if tx.from in low || tx.from in k.ignored {
      o := if tx.from in low then SetAside else Waits;
      SkipReplays(env, k, tx, o, k', w, gasLimit);
    } else {
      AttemptReplays(env, k, tx, w, gasLimit);
      o := AttemptAccounts(env, k, tx);
    }
  }

  lemma {:induction false} SplitLast(txs: seq<Msg>)
    requires txs != []
    ensures txs == txs[..|txs| - 1] + [txs[|txs| - 1]]
  {
  }

  // ---- Which transactions end up where ----

  /** The sender has offered less than the asking price up to position `n`. */
  ghost predicate Underpaid(owned: set<Address>, gasPrice: nat, txs: seq<Msg>, n: int, a: Address) {
    exists j :: 0 <= j < n && j < |txs| && txs[j].from == a && Cheap(owned, gasPrice, txs[j])
  }

  /** A transaction of the sender did not fit the pool before position `n`. */
  ghost predicate Short(txs: seq<Msg>, outs: seq<Outcome>, n: int, a: Address) {
    exists j :: 0 <= j < n && j < |txs| && j < |outs| && txs[j].from == a && outs[j] == Turned(GasLimitReached)
  }

  /** The outcome of a transaction that is tried. */
  ghost function Verdict(env: Env, tx: Msg, k: Packed): (o: Outcome) {
    match Transact(env, tx, k.progress.world, k.poolGas)
    case Applied(_, _, _, _, _) => Committed
    case Refused(e) => Turned(e)
  }

  /** The sets and lists of the work say exactly which transaction had which outcome. */
  ghost predicate Booked(owned: set<Address>, gasPrice: nat, txs: seq<Msg>, k: Packed) {
    && |k.outcomes| == |txs|
    && (forall a :: a in k.low <==> Underpaid(owned, gasPrice, txs, |txs|, a))
    && (forall a :: a in k.ignored <==> Short(txs, k.outcomes, |txs|, a))
    && k.txs == Picked(txs, k.outcomes, Committed)
    && k.lowTxs == Picked(txs, k.outcomes, SetAside)
    && (forall t :: t in k.remove <==> Removed(txs, k.outcomes, t))
  }

  ghost predicate Removed(txs: seq<Msg>, outs: seq<Outcome>, t: Msg) {
    exists j :: 0 <= j < |txs| && j < |outs| && txs[j] == t && outs[j].Turned? && outs[j] != Turned(GasLimitReached)
  }

  lemma {:induction false} ShortSnoc(txs: seq<Msg>, outs: seq<Outcome>, tx: Msg, o: Outcome, a: Address)
    requires |txs| == |outs|
    ensures Short(txs + [tx], outs + [o], |txs| + 1, a) <==>
            Short(txs, outs, |txs|, a) || (tx.from == a && o == Turned(GasLimitReached))
  {
    var more, os, n := txs + [tx], outs + [o], |txs|;
    assert more[n] == tx && os[n] == o;
    if j :| 0 <= j < n && txs[j].from == a && outs[j] == Turned(GasLimitReached) {
      assert more[j].from == a && os[j] == Turned(GasLimitReached);
    }
  }

  lemma {:induction false} RemovedSnoc(txs: seq<Msg>, outs: seq<Outcome>, tx: Msg, o: Outcome, t: Msg)
    requires |txs| == |outs|
    ensures Removed(txs + [tx], outs + [o], t) <==>
            Removed(txs, outs, t) || (tx == t && o.Turned? && o != Turned(GasLimitReached))
  {
    var more, os, n := txs + [tx], outs + [o], |txs|;
    assert more[n] == tx && os[n] == o;
    if j :| 0 <= j < n && txs[j] == t && outs[j].Turned? && outs[j] != Turned(GasLimitReached) {
      assert more[j] == t && os[j] == outs[j];
    }
  }

  lemma {:induction false} UnderpaidSnoc(owned: set<Address>, gasPrice: nat, txs: seq<Msg>, tx: Msg, a: Address)
    ensures Underpaid(owned, gasPrice, txs + [tx], |txs| + 1, a) <==>
            Underpaid(owned, gasPrice, txs, |txs|, a) || (tx.from == a && Cheap(owned, gasPrice, tx))
  {
    var more, n := txs + [tx], |txs|;
    assert more[n] == tx;
    if j :| 0 <= j < n && txs[j].from == a && Cheap(owned, gasPrice, txs[j]) {
      assert more[j] == txs[j];
    }
  }

  /** `k'` is `k` with `tx` booked under the outcome `o`. */
  ghost predicate BookedUnder(owned: set<Address>, gasPrice: nat, k: Packed, tx: Msg, o: Outcome, k': Packed) {
    && k'.outcomes == k.outcomes + [o]
    && k'.low == k.low + (if Cheap(owned, gasPrice, tx) then {tx.from} else {})
    && k'.ignored == k.ignored + (if o == Turned(GasLimitReached) then {tx.from} else {})
    && k'.remove == k.remove + (if o.Turned? && o != Turned(GasLimitReached) then {tx} else {})
    && k'.txs == k.txs + (if o == Committed then [tx] else [])
    && k'.lowTxs == k.lowTxs + (if o == SetAside then [tx] else [])
  }

  lemma {:induction false} AttemptBooks(env: Env, owned: set<Address>, gasPrice: nat, k: Packed, tx: Msg)
    requires !Cheap(owned, gasPrice, tx)
    ensures BookedUnder(owned, gasPrice, k, tx, Verdict(env, tx, k), Attempted(env, k, tx))
  {
  }

  lemma {:induction false} ConsiderBooks(env: Env, owned: set<Address>, gasPrice: nat, k: Packed, tx: Msg)
    returns (o: Outcome)
    requires forall a | a in k.low :: a !in owned
    ensures var k' := Considered(env, owned, gasPrice, k, tx);
            && BookedUnder(owned, gasPrice, k, tx, o, k')
            && o == if tx.from in k'.low then SetAside else if tx.from in k.ignored then Waits else Verdict(env, tx, k)
  {
    var low := k.low + if Cheap(owned, gasPrice, tx) then {tx.from} else {};
    if tx.from in low {
      o := SetAside;
    } else if tx.from in k.ignored {
      o := Waits;
    } else {
      AttemptBooks(env, owned, gasPrice, k, tx);
      o := Verdict(env, tx, k);
    }
  }

  lemma {:induction false} LowBooked(owned: set<Address>, gasPrice: nat, txs: seq<Msg>, tx: Msg, k: Packed, o: Outcome,
                                     k': Packed)
    requires Booked(owned, gasPrice, txs, k) && BookedUnder(owned, gasPrice, k, tx, o, k')
    ensures forall a :: a in k'.low <==> Underpaid(owned, gasPrice, txs + [tx], |txs| + 1, a)
  {
    forall a
      ensures a in k'.low <==> Underpaid(owned, gasPrice, txs + [tx], |txs| + 1, a)
    {
      UnderpaidSnoc(owned, gasPrice, txs, tx, a);
    }
  }

  lemma {:induction false} IgnoredBooked(owned: set<Address>, gasPrice: nat, txs: seq<Msg>, tx: Msg, k: Packed,
                                         o: Outcome, k': Packed)
    requires Booked(owned, gasPrice, txs, k) && BookedUnder(owned, gasPrice, k, tx, o, k')
    ensures forall a :: a in k'.ignored <==> Short(txs + [tx], k'.outcomes, |txs| + 1, a)
  {
    forall a
      ensures a in k'.ignored <==> Short(txs + [tx], k'.outcomes, |txs| + 1, a)
    {
      ShortSnoc(txs, k.outcomes, tx, o, a);
    }
  }

  lemma {:induction false} RemoveBooked(owned: set<Address>, gasPrice: nat, txs: seq<Msg>, tx: Msg, k: Packed,
                                        o: Outcome, k': Packed)
    requires Booked(owned, gasPrice, txs, k) && BookedUnder(owned, gasPrice, k, tx, o, k')
    ensures forall t :: t in k'.remove <==> Removed(txs + [tx], k'.outcomes, t)
  {
    forall t
      ensures t in k'.remove <==> Removed(txs + [tx], k'.outcomes, t)
    {
      RemovedSnoc(txs, k.outcomes, tx, o, t);
    }
  }

  lemma {:induction false} MoreBooked(owned: set<Address>, gasPrice: nat, txs: seq<Msg>, tx: Msg, k: Packed, o: Outcome,
                                      k': Packed)
    requires Booked(owned, gasPrice, txs, k) && BookedUnder(owned, gasPrice, k, tx, o, k')
    ensures Booked(owned, gasPrice, txs + [tx], k')
  {
    LowBooked(owned, gasPrice, txs, tx, k, o, k');
    IgnoredBooked(owned, gasPrice, txs, tx, k, o, k');
    RemoveBooked(owned, gasPrice, txs, tx, k, o, k');
    LastStep(txs, k.outcomes, tx, o, Committed);
    LastStep(txs, k.outcomes, tx, o, SetAside);
  }

  /** One transaction, decided by what came before it. */
  lemma {:induction false} StepBooks(env: Env, owned: set<Address>, gasPrice: nat, k: Packed, txs: seq<Msg>, tx: Msg)
    requires Booked(owned, gasPrice, txs, k)
    ensures var k' := Considered(env, owned, gasPrice, k, tx);
            && Booked(owned, gasPrice, txs + [tx], k') && k'.outcomes[..|txs|] == k.outcomes
            && (k'.outcomes[|txs|] == if Underpaid(owned, gasPrice, txs + [tx], |txs| + 1, tx.from) then SetAside
                                      else if Short(txs, k.outcomes, |txs|, tx.from) then Waits
                                      else Verdict(env, tx, k))
  {
    var o := ConsiderBooks(env, owned, gasPrice, k, tx);
    MoreBooked(owned, gasPrice, txs, tx, k, o, Considered(env, owned, gasPrice, k, tx));
  }

  /** Over the whole offer: the block holds exactly the committed transactions in order, and
      underpaying, waiting and removed ones are exactly those with that outcome. */
  lemma {:induction false} PackBooks(env: Env, owned: set<Address>, gasPrice: nat, w: World, gasLimit: nat,
                                     txs: seq<Msg>)
    ensures Booked(owned, gasPrice, txs, PackedUp(env, owned, gasPrice, w, gasLimit, txs))
  {
    if txs != [] {
      var init, tx := txs[..|txs| - 1], txs[|txs| - 1];
      PackBooks(env, owned, gasPrice, w, gasLimit, init);
      StepBooks(env, owned, gasPrice, PackedUp(env, owned, gasPrice, w, gasLimit, init), init, tx);
      assert txs == init + [tx];
    }
  }

  /** Outcomes are final: a longer offer begins with the outcomes of the shorter one. */
  lemma {:induction false} OutcomesPrefix(env: Env, owned: set<Address>, gasPrice: nat, w: World, gasLimit: nat,
                                          txs: seq<Msg>, i: nat)
    requires i <= |txs|
    ensures var k := PackedUp(env, owned, gasPrice, w, gasLimit, txs);
            |k.outcomes| == |txs| && k.outcomes[..i] == PackedUp(env, owned, gasPrice, w, gasLimit, txs[..i]).outcomes
  {
    PackBooks(env, owned, gasPrice, w, gasLimit, txs);
    if i == |txs| {
      assert txs[..i] == txs;
    } else {
      var init := txs[..|txs| - 1];
      OutcomesPrefix(env, owned, gasPrice, w, gasLimit, init, i);
      assert init[..i] == txs[..i];
      PackBooks(env, owned, gasPrice, w, gasLimit, init);
      StepBooks(env, owned, gasPrice, PackedUp(env, owned, gasPrice, w, gasLimit, init), init, txs[|txs| - 1]);
    }
  }

  lemma {:induction false} OutcomeLast(env: Env, owned: set<Address>, gasPrice: nat, w: World, gasLimit: nat,
                                       txs: seq<Msg>, i: nat)
    requires i < |txs|
    ensures var k := PackedUp(env, owned, gasPrice, w, gasLimit, txs[..i]);
            var k' := PackedUp(env, owned, gasPrice, w, gasLimit, txs[..i + 1]);
            |k.outcomes| == i && |k'.outcomes| == i + 1 && k'.outcomes[i] ==
              if Underpaid(owned, gasPrice, txs[..i + 1], i + 1, txs[i].from) then SetAside
              else if Short(txs[..i], k.outcomes, i, txs[i].from) then Waits
              else Verdict(env, txs[i], k)
  {
    var more := txs[..i + 1];
    assert more[..|more| - 1] == txs[..i] && more == txs[..i] + [txs[i]];
    PackBooks(env, owned, gasPrice, w, gasLimit, txs[..i]);
    StepBooks(env, owned, gasPrice, PackedUp(env, owned, gasPrice, w, gasLimit, txs[..i]), txs[..i], txs[i]);
  }

  /** Every outcome is decided by the sender's earlier offers and refusals, or else by the
      state and the pool the committed transactions before it have left. */
  lemma {:induction false} OutcomeDecided(env: Env, owned: set<Address>, gasPrice: nat, w: World, gasLimit: nat,
                                          txs: seq<Msg>, i: nat)
    requires i < |txs|
    ensures var k := PackedUp(env, owned, gasPrice, w, gasLimit, txs);
            |k.outcomes| == |txs| && k.outcomes[i] ==
              if Underpaid(owned, gasPrice, txs, i + 1, txs[i].from) then SetAside
              else if Short(txs, k.outcomes, i, txs[i].from) then Waits
              else Verdict(env, txs[i], PackedUp(env, owned, gasPrice, w, gasLimit, txs[..i]))
  {
    OutcomeLast(env, owned, gasPrice, w, gasLimit, txs, i);
    OutcomesPrefix(env, owned, gasPrice, w, gasLimit, txs, i);
    OutcomesPrefix(env, owned, gasPrice, w, gasLimit, txs, i + 1);
    var outs := PackedUp(env, owned, gasPrice, w, gasLimit, txs).outcomes;
    EarlierOnly(owned, gasPrice, txs, outs, i, txs[i].from);
    assert outs[..i + 1][i] == outs[i];
  }

  /** A transaction is set aside exactly when its sender is not the node's own and has offered
      less than the asking price in it or before it. */
  lemma {:induction false} SetAsideIff(env: Env, owned: set<Address>, gasPrice: nat, w: World, gasLimit: nat,
                                       txs: seq<Msg>, i: nat)
    requires i < |txs|
    ensures var outs := PackedUp(env, owned, gasPrice, w, gasLimit, txs).outcomes;
            |outs| == |txs| &&
            (outs[i] == SetAside <==>
             && txs[i].from !in owned
             && exists j :: 0 <= j <= i && txs[j].from == txs[i].from && txs[j].gasPrice < gasPrice)
  {
    OutcomeDecided(env, owned, gasPrice, w, gasLimit, txs, i);
    var a := txs[i].from;
    if j :| 0 <= j <= i && txs[j].from == a && txs[j].gasPrice < gasPrice {
      assert a !in owned ==> Cheap(owned, gasPrice, txs[j]);
    }
  }

  lemma {:induction false} EarlierOnly(owned: set<Address>, gasPrice: nat, txs: seq<Msg>, outs: seq<Outcome>, i: nat,
                                       a: Address)
    requires i < |txs| == |outs|
    ensures Underpaid(owned, gasPrice, txs[..i + 1], i + 1, a) <==> Underpaid(owned, gasPrice, txs, i + 1, a)
    ensures Short(txs[..i], outs[..i], i, a) <==> Short(txs, outs, i, a)
  {
    if j :| 0 <= j < i + 1 && txs[j].from == a && Cheap(owned, gasPrice, txs[j]) {
      assert txs[..i + 1][j] == txs[j];
    }
    if j :| 0 <= j < i && txs[j].from == a && outs[j] == Turned(GasLimitReached) {
      assert txs[..i][j] == txs[j] && outs[..i][j] == outs[j];
    }
  }

  /** A transaction makes the pool leak exactly when it is tried and passes the guards up to
      the purchase of its gas, but has too little gas or cannot pay its value. */
  lemma {:induction false} LeakDecided(env: Env, owned: set<Address>, gasPrice: nat, w: World, gasLimit: nat,
                                       txs: seq<Msg>, i: nat)
    requires i < |txs|
    ensures var outs := PackedUp(env, owned, gasPrice, w, gasLimit, txs).outcomes;
            var k := PackedUp(env, owned, gasPrice, w, gasLimit, txs[..i]);
            |outs| == |txs| &&
            (LeakOf(txs[i], outs[i]) > 0 <==>
             && !Underpaid(owned, gasPrice, txs, i + 1, txs[i].from) && !Short(txs, outs, i, txs[i].from)
             && LeakGuard(env, txs[i], k.progress.world, k.poolGas))
  {
    OutcomeDecided(env, owned, gasPrice, w, gasLimit, txs, i);
    var k := PackedUp(env, owned, gasPrice, w, gasLimit, txs[..i]);
    LeaksIff(env, txs[i], k.progress.world, k.poolGas);
  }

  /** A single free transaction with one unit of gas: the block stays empty and the pool is
      one unit short of the limit. */
  lemma {:induction false} LeakingOffer(env: Env, gasLimit: nat)
    requires gasLimit > 0
    ensures var tx := Msg(7, Some(8), 0, 1, 0, 0, []);
            var k := PackedUp(env, {}, 0, World(map[], map[], 0, {}), gasLimit, [tx]);
            k.txs == [] && k.progress.used == 0 && k.poolGas == gasLimit - 1 && k.outcomes == [Turned(IntrinsicTooLow)]
  {
    var tx := Msg(7, Some(8), 0, 1, 0, 0, []);
    LeakExample(env, gasLimit);
    assert [tx][..0] == [];
  }

  /** Senders wait only for a transaction that still does not fit what is left of the pool. */
  lemma {:induction false} WaitingDoesNotFit(env: Env, owned: set<Address>, gasPrice: nat, w: World, gasLimit: nat,
                                             txs: seq<Msg>, a: Address)
    requires VmLawful(env) && NonNegative(w.balances) && w.refund == 0
    requires a in PackedUp(env, owned, gasPrice, w, gasLimit, txs).ignored
    ensures exists j ::
             0 <= j < |txs| && txs[j].from == a && txs[j].gas > PackedUp(env, owned, gasPrice, w, gasLimit, txs).poolGas
    decreases |txs|
  {
    var init, tx := txs[..|txs| - 1], txs[|txs| - 1];
    var k := PackedUp(env, owned, gasPrice, w, gasLimit, init);
    PackReplays(env, owned, gasPrice, w, gasLimit, init);
    PoolShrinks(env, owned, gasPrice, k, tx);
    if a in k.ignored {
      WaitingDoesNotFit(env, owned, gasPrice, w, gasLimit, init, a);
      var j :| 0 <= j < |init| && init[j].from == a && init[j].gas > k.poolGas;
      assert txs[j] == init[j];
    } else {
      assert txs[|txs| - 1] == tx;
    }
  }

  lemma {:induction false} PoolShrinks(env: Env, owned: set<Address>, gasPrice: nat, k: Packed, tx: Msg)
    requires VmLawful(env) && NonNegative(k.progress.world.balances)
    ensures var k' := Considered(env, owned, gasPrice, k, tx);
            && k'.poolGas <= k.poolGas
            && (forall a | a in k'.ignored && a !in k.ignored :: a == tx.from && tx.gas > k'.poolGas)
  {
    TransactConserves(env, tx, k.progress.world, k.poolGas);
  }

  // ---- The work environment ----

  /** The transaction part of the miner's work environment. */
  class Work {
    const env: Env
    const gasLimit: nat
    const owned: set<Address>

    var world: World
    var receipts: seq<Receipt>
    var gasUsed: nat
    var txs: seq<Msg>
    var lowGasTransactors: set<Address>
    var ignoredTransactors: set<Address>
    var lowGasTxs: seq<Msg>
    var remove: set<Msg>
    var tcount: nat
    /** For the accounting: what was burned, and the outcome of every transaction. */
    var burned: int
    ghost var outcomes: seq<Outcome>

    constructor (env: Env, gasLimit: nat, owned: set<Address>, world: World)
      ensures this.env == env && this.gasLimit == gasLimit && this.owned == owned && this.world == world && Fresh()
    {
      this.env, this.gasLimit, this.owned, this.world := env, gasLimit, owned, world;
      receipts, gasUsed, txs, lowGasTxs, remove, tcount, burned, outcomes := [], 0, [], [], {}, 0, 0, [];
      lowGasTransactors, ignoredTransactors := {}, {};
    }

    ghost predicate Fresh()
      reads this
    {
      && receipts == [] && gasUsed == 0 && burned == 0 && txs == [] && lowGasTxs == [] && remove == {} && tcount == 0
      && outcomes == [] && lowGasTransactors == {} && ignoredTransactors == {}
    }

    ghost function Value(poolGas: nat): (k: Packed)
      reads this
    {
      Packed(Progress(world, receipts, gasUsed, burned), txs, poolGas, lowGasTransactors, ignoredTransactors,
             lowGasTxs, remove, outcomes)
    }

    /** Applies `tx`; a refused one leaves the work as it was, but not the pool. */
    method CommitTransaction(tx: Msg, pool: GasPool) returns (err: Option<TxError>)
      requires VmLawful(env) && NonNegative(world.balances)
      modifies `world, `receipts, `gasUsed, `txs, `burned, pool
      ensures var p := old(Value(pool.gas).progress);
              match Extended(env, p, tx, old(pool.gas))
              case Failed(e) => err == Some(e)
                && Value(pool.gas) == old(Value(pool.gas)).(poolGas := PoolAfter(tx, old(pool.gas), Refused(e)))
              case Done(q) => err == None && pool.gas + q.used == old(pool.gas) + p.used
                              && Value(pool.gas)
                                 == old(Value(pool.gas)).(progress := q, txs := old(txs) + [tx], poolGas := pool.gas)
    {
      var s := ApplyTransaction(env, pool, Progress(world, receipts, gasUsed, burned), tx);
      if s.Failed? {
        return Some(s.error);
      }
      world, receipts, gasUsed, burned := s.progress.world, s.progress.receipts, s.progress.used, s.progress.burned;
      txs := txs + [tx];
      return None;
    }

    /** Tries a transaction and books the outcome: senders short of pool gas wait, other
        failures are marked for removal. */
    method Attempt(tx: Msg, pool: GasPool)
      requires VmLawful(env) && NonNegative(world.balances)
      modifies this, pool
      ensures Value(pool.gas) == Attempted(env, old(Value(pool.gas)), tx)
      ensures tcount - |txs| == old(tcount - |txs|)
    {
      var err := CommitTransaction(tx, pool);
      if err.Some? {
        outcomes := outcomes + [Turned(err.value)];
        if err.value == GasLimitReached {
          ignoredTransactors := ignoredTransactors + {tx.from};
        } else {
          remove := remove + {tx};
        }
      } else {
        outcomes := outcomes + [Committed];
        tcount := tcount + 1;
      }
    }

    /** One transaction of the loop. A sender that offers less than the asking price is set
        aside from then on, unless the account is the node's own. */
    method Consider(tx: Msg, gasPrice: nat, pool: GasPool)
      requires VmLawful(env) && NonNegative(world.balances)
      modifies this, pool
      ensures Value(pool.gas) == Considered(env, owned, gasPrice, old(Value(pool.gas)), tx)
      ensures tcount - |txs| == old(tcount - |txs|)
    {
      if tx.gasPrice < gasPrice && tx.from !in owned {
        lowGasTransactors := lowGasTransactors + {tx.from};
      }
      if tx.from in lowGasTransactors {
        if tx.from !in owned {
          lowGasTxs := lowGasTxs + [tx];
        }
        outcomes := outcomes + [SetAside];
        return;
      }
      if tx.from in ignoredTransactors {
        outcomes := outcomes + [Waits];
        return;
      }
      Attempt(tx, pool);
    }

    /** Commits what fits of `transactions` to fresh work. */
    method CommitTransactions(transactions: seq<Msg>, gasPrice: nat) returns (pool: GasPool)
      requires VmLawful(env) && NonNegative(world.balances) && world.refund == 0 && Fresh()
      modifies this
      ensures Value(pool.gas) == PackedUp(env, owned, gasPrice, old(world), gasLimit, transactions)
      ensures Executed(env, txs, old(world), gasLimit) == Done(Value(pool.gas).progress)
      ensures |outcomes| == |transactions| && pool.gas + gasUsed + Leaked(transactions, outcomes) == gasLimit
      ensures Booked(owned, gasPrice, transactions, Value(pool.gas)) && tcount == |txs|
    {
      pool := new GasPool(gasLimit);
      for i := 0 to |transactions|
        invariant fresh(pool) && tcount == |txs|
        invariant Value(pool.gas) == PackedUp(env, owned, gasPrice, old(world), gasLimit, transactions[..i])
      {
        var more := transactions[..i + 1];
        assert more[..|more| - 1] == transactions[..i] && more[|more| - 1] == transactions[i];
        PackReplays(env, owned, gasPrice, old(world), gasLimit, transactions[..i]);
        Consider(transactions[i], gasPrice, pool);
      }
      assert transactions[..|transactions|] == transactions;
      PackReplays(env, owned, gasPrice, old(world), gasLimit, transactions);
      PackBooks(env, owned, gasPrice, old(world), gasLimit, transactions);
    }
  }
}
