/** The transaction pool as values: what promoting, validating and resetting do to each
    sender's transactions, and the nonce ranges that every run keeps. */
module PoolSpec {
  import opened Bytes
  import opened Lineage
  import opened Ledger
  import opened Execution
  import opened Sets

  const MAX_QUEUED := 64

  /** A transaction, identified by its hash; `signed` when a sender can be recovered. */
  datatype Tx = Tx(hash: Hash, from: Address, signed: bool, nonce: nat, gasPrice: nat, gas: nat, value: int,
                   data: seq<Byte>, creates: bool)

  function Cost(t: Tx): (c: int) {
    t.gasPrice * t.gas + t.value
  }

  /** The chain state the pool looks at. */
  datatype State = State(nonce: Address -> nat, balance: Address -> int, known: Address -> bool)

  /** A state with the pool's own nonces on top. */
  datatype Managed = Managed(base: State, nonces: map<Address, nat>)

  function GetNonce(m: Managed, a: Address): (n: nat) {
    if a in m.nonces then m.nonces[a] else m.base.nonce(a)
  }

  /** Transactions are keyed by hash, so the maps of the pool are sets of transactions. */
  datatype Pool = Pool(pending: set<Tx>, queue: map<Address, set<Tx>>, managed: Managed)

  function QueueOf(q: map<Address, set<Tx>>, a: Address): (s: set<Tx>) {
    if a in q then q[a] else {}
  }

  predicate Affordable(st: State, t: Tx) {
    st.balance(t.from) >= Cost(t)
  }

  /** Neither processed nor out of funds. */
  predicate Live(st: State, t: Tx) {
    t.nonce >= st.nonce(t.from) && Affordable(st, t)
  }

  /** Queue entries sit under their sender, are never empty, and are not pending. */
  ghost predicate Tidy(pending: set<Tx>, queue: map<Address, set<Tx>>) {
    && (forall a | a in queue :: queue[a] != {})
    && (forall a, t | t in QueueOf(queue, a) :: t.from == a && t !in pending)
  }

  ghost predicate Filed(p: Pool) {
    Tidy(p.pending, p.queue)
  }

  // ---- Promoting queued transactions ----

  ghost predicate HasLive(st: State, p: Pool, a: Address, n: nat) {
    exists t :: t in QueueOf(p.queue, a) && Live(st, t) && t.nonce == n
  }

  /** The consecutive queued nonces from the guessed nonce on end before `end`. */
  ghost predicate Run(st: State, p: Pool, a: Address, end: nat) {
    && GetNonce(p.managed, a) <= end
    && (forall n {:trigger HasLive(st, p, a, n)} | GetNonce(p.managed, a) <= n < end :: HasLive(st, p, a, n))
    && !HasLive(st, p, a, end)
  }

  /** Everything live below `end` becomes pending. */
  ghost predicate Promoted(st: State, p: Pool, q: Pool, a: Address, end: nat) {
    forall t: Tx | t.from == a ::
      t in q.pending <==> t in p.pending || (t in QueueOf(p.queue, a) && Live(st, t) && t.nonce < end)
  }

  /** Of the live transactions above `end` at most 64 stay, the ones with the lowest nonces. */
  ghost predicate Capped(st: State, p: Pool, q: Pool, a: Address, end: nat) {
    && (forall t | t in QueueOf(q.queue, a) :: t in QueueOf(p.queue, a) && Live(st, t) && t.nonce > end)
    && |QueueOf(q.queue, a)| <= MAX_QUEUED
    && (forall t | t in QueueOf(p.queue, a) && t !in QueueOf(q.queue, a) && Live(st, t) && t.nonce > end ::
          |QueueOf(q.queue, a)| == MAX_QUEUED && forall k | k in QueueOf(q.queue, a) :: k.nonce <= t.nonce)
  }

  /** `t` is the last live transaction below the guessed nonce. */
  ghost predicate LastBelow(st: State, p: Pool, a: Address, g: nat, t: Tx) {
    && t in QueueOf(p.queue, a) && Live(st, t) && t.nonce < g
    && forall u | u in QueueOf(p.queue, a) && Live(st, u) && u.nonce < g :: u.nonce <= t.nonce
  }

  /** The pending nonce moves to `end`, except when only lower nonces were promoted. */
  ghost predicate Guessed(st: State, p: Pool, q: Pool, a: Address, end: nat) {
    var g, g' := GetNonce(p.managed, a), GetNonce(q.managed, a);
    if end > g || (forall t | t in QueueOf(p.queue, a) && Live(st, t) :: t.nonce >= g) then g' == end
    else exists t :: LastBelow(st, p, a, g, t) && g' == t.nonce + 1
  }

  ghost predicate Promotion(st: State, p: Pool, q: Pool, a: Address, end: nat) {
    Run(st, p, a, end) && Promoted(st, p, q, a, end) && Capped(st, p, q, a, end) && Guessed(st, p, q, a, end)
  }

  /** One pass over the queue, sender by sender. */
  ghost predicate Checked(st: State, p: Pool, q: Pool) {
    && q.managed.base == p.managed.base
    && (forall a | a in q.queue :: q.queue[a] != {})
    && forall a {:trigger CheckedFor(st, p, q, a)} :: CheckedFor(st, p, q, a)
  }

  ghost predicate CheckedFor(st: State, p: Pool, q: Pool, a: Address) {
    exists end :: Promotion(st, p, q, a, end)
  }

  // ---- Validating the pending transactions ----

  /** Some pending transaction of the same sender, not above `t`, cannot be paid. */
  ghost predicate Gapped(st: State, pending: set<Tx>, t: Tx) {
    exists u :: u in pending && u.from == t.from && u.nonce >= st.nonce(u.from) && !Affordable(st, u)
      && u.nonce <= t.nonce
  }

  /** Dead transactions go, live ones after a gap go back to the queue. */
  ghost predicate Validated(st: State, p: Pool, q: Pool) {
    && q.managed == p.managed
    && (forall t :: t in q.pending <==> t in p.pending && Live(st, t) && !Gapped(st, p.pending, t))
    && (forall a, t {:trigger t in QueueOf(q.queue, a)} {:trigger t in QueueOf(p.queue, a)} ::
          t in QueueOf(q.queue, a) <==>
          t in QueueOf(p.queue, a) || (t.from == a && t in p.pending && Live(st, t) && Gapped(st, p.pending, t)))
    && (forall a | a in q.queue :: q.queue[a] != {})
  }

  // ---- Starting over from a new state ----

  /** The pending nonce is one above the sender's highest pending nonce, if it has any. */
  ghost predicate Rebased(st: State, p: Pool, q: Pool) {
    && q.pending == p.pending && q.queue == p.queue && q.managed.base == st
    && forall a {:trigger GetNonce(q.managed, a)} ::
         && st.nonce(a) <= GetNonce(q.managed, a)
         && (forall t | t in p.pending && t.from == a :: t.nonce < GetNonce(q.managed, a))
         && (GetNonce(q.managed, a) == st.nonce(a) || exists t ::
            t in p.pending && t.from == a && t.nonce + 1 == GetNonce(q.managed, a))
  }

  ghost predicate Reset(st: State, p: Pool, q: Pool) {
    exists v, r :: Validated(st, p, v) && Rebased(st, v, r) && Checked(st, r, q)
  }

  // ---- Accepting transactions ----

  datatype PoolError = Known | Cheap | InvalidSender | NonExistentAccount | NonceTooLow | ExceedsGasLimit
                     | NegativeValue | InsufficientFunds | IntrinsicTooLow

  /** The first rule a transaction breaks. */
  function Verdict(st: State, t: Tx, minGasPrice: nat, gasLimit: nat, homestead: bool): (e: Option<PoolError>) {
    if minGasPrice > t.gasPrice then Some(Cheap)
    else if !t.signed then Some(InvalidSender)
    else if !st.known(t.from) then Some(NonExistentAccount)
    else if st.nonce(t.from) > t.nonce then Some(NonceTooLow)
    else if gasLimit < t.gas then Some(ExceedsGasLimit)
    else if t.value < 0 then Some(NegativeValue)
    else if st.balance(t.from) < Cost(t) then Some(PoolError.InsufficientFunds)
    else if t.gas < Intrinsic(t.data, t.creates, homestead) then Some(PoolError.IntrinsicTooLow)
    else None
  }

  /** Which rule each refusal is about, and which rules were found to hold before it. */
  lemma {:induction false} FirstRefusal(st: State, t: Tx, minGasPrice: nat, gasLimit: nat, homestead: bool)
    ensures var v := Verdict(st, t, minGasPrice, gasLimit, homestead);
            var priced := t.gasPrice >= minGasPrice;
            var owned := t.signed && st.known(t.from);
            var timely := t.nonce >= st.nonce(t.from);
            var fits := t.gas <= gasLimit;
            var paid := t.value >= 0 && st.balance(t.from) >= t.gasPrice * t.gas + t.value;
            && (v == None
                <==> priced && owned && timely && fits && paid && t.gas >= Intrinsic(t.data, t.creates, homestead))
            && (v == Some(Cheap) <==> !priced)
            && (v == Some(InvalidSender) <==> priced && !t.signed)
            && (v == Some(NonExistentAccount) <==> priced && t.signed && !st.known(t.from))
            && (v == Some(NonceTooLow) <==> priced && owned && !timely)
            && (v == Some(ExceedsGasLimit) <==> priced && owned && timely && !fits)
            && (v == Some(NegativeValue) <==> priced && owned && timely && fits && t.value < 0)
            && (v == Some(PoolError.InsufficientFunds)
                <==> priced && owned && timely && fits && t.value >= 0 && !paid)
  {
  }

  /** The message a transaction becomes; `to` is its recipient if it has one. */
  function AsMessage(t: Tx, to: Address): (m: Msg)
    requires t.value >= 0
  {
    Msg(t.from, if t.creates then None else Some(to), t.nonce, t.gas, t.gasPrice, t.value, t.data)
  }

  lemma {:induction false} AppliesIff(env: Env, msg: Msg, w: World, poolGas: nat, fee: int)
    requires fee == msg.gasPrice * msg.gas
    ensures Transact(env, msg, w, poolGas).Applied? <==>
            && NonceOf(w, msg.from) == msg.nonce && msg.gas <= poolGas
            && BalanceOf(w.balances, msg.from) >= fee + msg.value
            && msg.gas >= Intrinsic(msg.data, msg.to.None?, env.homestead)
  {
    assert fee == msg.gas * msg.gasPrice;
    FirstRefused(env, msg, w, poolGas, fee);
  }

  /** Admission means execution: an admitted transaction is applied in any state in which its
      nonce has come and its sender is no poorer, with the block's whole gas to use. */
  lemma {:induction false} AdmittedExecutes(env: Env, w: World, st: State, t: Tx, to: Address, minGasPrice: nat,
                                            gasLimit: nat)
    requires Verdict(st, t, minGasPrice, gasLimit, env.homestead) == None
    requires NonceOf(w, t.from) == t.nonce && BalanceOf(w.balances, t.from) >= st.balance(t.from)
    ensures t.value >= 0 && Transact(env, AsMessage(t, to), w, gasLimit).Applied?
  {
    AppliesIff(env, AsMessage(t, to), w, gasLimit, t.gasPrice * t.gas);
  }

  /** Among well-priced transactions of known senders whose nonce is next, the pool admits exactly
      those the state would execute. */
  lemma {:induction false} AdmittedIffExecutable(env: Env, w: World, st: State, t: Tx, to: Address, minGasPrice: nat,
                                                 gasLimit: nat)
    requires st.nonce(t.from) == NonceOf(w, t.from) == t.nonce && st.balance(t.from) == BalanceOf(w.balances, t.from)
    requires t.gasPrice >= minGasPrice && t.signed && st.known(t.from) && t.value >= 0
    ensures Verdict(st, t, minGasPrice, gasLimit, env.homestead) == None
            <==> Transact(env, AsMessage(t, to), w, gasLimit).Applied?
  {
    AppliesIff(env, AsMessage(t, to), w, gasLimit, t.gasPrice * t.gas);
  }

  function Queued(p: Pool, t: Tx): (q: Pool) {
    p.(queue := p.queue[t.from := QueueOf(p.queue, t.from) + {t}])
  }

  // ---- The invariant of runs ----

  ghost predicate InPool(p: Pool, t: Tx) {
    t in p.pending || t in QueueOf(p.queue, t.from)
  }

  /** No two transactions of the pool compete for a sender's nonce. */
  ghost predicate Unique(p: Pool) {
    forall t, u {:trigger InPool(p, t), InPool(p, u)} ::
      InPool(p, t) && InPool(p, u) && t.from == u.from && t.nonce == u.nonce ==> t == u
  }

  ghost predicate HasPending(p: Pool, a: Address, n: nat) {
    exists t :: t in p.pending && t.from == a && t.nonce == n
  }

  /** The sender's pending nonces are exactly those from the state's nonce to the pool's. */
  ghost predicate Ranged(p: Pool, a: Address) {
    && p.managed.base.nonce(a) <= GetNonce(p.managed, a)
    && forall n: nat :: HasPending(p, a, n) <==> p.managed.base.nonce(a) <= n < GetNonce(p.managed, a)
  }

  /** No queued transaction could be promoted by its nonce. */
  ghost predicate NoneReady(p: Pool, a: Address) {
    forall t | t in QueueOf(p.queue, a) :: t.nonce != GetNonce(p.managed, a)
  }

  ghost predicate Inv(p: Pool) {
    && Filed(p) && Unique(p)
    && (forall a {:trigger Ranged(p, a)} :: Ranged(p, a))
    && (forall a {:trigger NoneReady(p, a)} :: NoneReady(p, a))
  }

  /** State nonces only advance. */
  ghost predicate Advances(st: State, st': State) {
    forall a :: st.nonce(a) <= st'.nonce(a)
  }

  // ---- One pass keeps the ranges ----

  lemma {:induction false} PassKeepsFiled(st: State, p: Pool, q: Pool)
    requires Filed(p) && Unique(p) && Checked(st, p, q)
    ensures Filed(q) && Unique(q)
    ensures forall t :: InPool(q, t) ==> InPool(p, t)
  {
    forall a, t | t in QueueOf(q.queue, a)
      ensures t.from == a && t !in q.pending && t in QueueOf(p.queue, a)
    {
      assert CheckedFor(st, p, q, a);
    }
    forall t | InPool(q, t)
      ensures InPool(p, t)
    {
      assert CheckedFor(st, p, q, t.from);
    }
  }

  /** With unique nonces nothing live is queued below the pending nonce. */
  lemma {:induction false} NothingBelow(st: State, p: Pool, a: Address, t: Tx)
    requires Filed(p) && Unique(p) && Ranged(p, a) && p.managed.base.nonce(a) <= st.nonce(a)
    requires t in QueueOf(p.queue, a) && Live(st, t)
    ensures t.nonce >= GetNonce(p.managed, a)
  {
    if t.nonce < GetNonce(p.managed, a) {
      assert HasPending(p, a, t.nonce);
      var u :| u in p.pending && u.from == a && u.nonce == t.nonce;
      assert InPool(p, u) && InPool(p, t);
    }
  }

  /** Whatever the pass promotes, the sender's pending nonces run up to where it stopped. */
  lemma {:induction false} RangeGrows(st: State, p: Pool, q: Pool, a: Address, end: nat, n: nat)
    requires Filed(p) && Ranged(p, a) && Run(st, p, a, end) && Promoted(st, p, q, a, end)
    requires p.managed.base.nonce(a) <= st.nonce(a)
    ensures HasPending(q, a, n) <==> p.managed.base.nonce(a) <= n < end
  {
    var lo, g := p.managed.base.nonce(a), GetNonce(p.managed, a);
    if lo <= n < g {
      assert HasPending(p, a, n);
      var t :| t in p.pending && t.from == a && t.nonce == n;
      assert t in q.pending;
    } else if g <= n < end {
      assert HasLive(st, p, a, n);
      var t :| t in QueueOf(p.queue, a) && Live(st, t) && t.nonce == n;
      assert t in q.pending;
    } else if HasPending(q, a, n) {
      var t :| t in q.pending && t.from == a && t.nonce == n;
      assert t in p.pending ==> HasPending(p, a, n);
    }
  }

  /** What decides whether the pass leaves the pending nonce behind the last promoted one. */
  ghost predicate NonceHolds(st: State, p: Pool, a: Address) {
    var g := GetNonce(p.managed, a);
    || HasLive(st, p, a, g)
    || (forall t | t in QueueOf(p.queue, a) && Live(st, t) :: t.nonce >= g)
    || (g > 0 && HasLive(st, p, a, g - 1))
  }

  lemma {:induction false} NonceHoldsIff(st: State, p: Pool, q: Pool, a: Address, end: nat)
    requires Promotion(st, p, q, a, end)
    ensures GetNonce(q.managed, a) == end <==> NonceHolds(st, p, a)
  {
    var g := GetNonce(p.managed, a);
    assert HasLive(st, p, a, g) <==> end > g;
    if end == g && exists t :: t in QueueOf(p.queue, a) && Live(st, t) && t.nonce < g {
      var t :| LastBelow(st, p, a, g, t) && GetNonce(q.managed, a) == t.nonce + 1;
      if g > 0 && HasLive(st, p, a, g - 1) {
        var u :| u in QueueOf(p.queue, a) && Live(st, u) && u.nonce == g - 1;
      }
    }
  }

  /** A pass keeps a sender's range exactly when a queued transaction has the pending
      nonce, or none lies below it, or one lies right below it. Otherwise replacing an
      earlier pending transaction pulls the pending nonce back into the range. */
  lemma {:induction false} PassKeepsRangeIff(st: State, p: Pool, q: Pool, a: Address)
    requires Filed(p) && Ranged(p, a) && p.managed.base.nonce(a) <= st.nonce(a)
    requires q.managed.base == p.managed.base && CheckedFor(st, p, q, a)
    ensures Ranged(q, a) <==> NonceHolds(st, p, a)
    ensures NoneReady(q, a)
  {
    var end :| Promotion(st, p, q, a, end);
    var lo, g' := p.managed.base.nonce(a), GetNonce(q.managed, a);
    NonceHoldsIff(st, p, q, a, end);
    forall n: nat
      ensures HasPending(q, a, n) <==> lo <= n < end
    {
      RangeGrows(st, p, q, a, end, n);
    }
    if g' != end {
      assert lo <= g' < end;
      assert HasPending(q, a, g');
    }
  }

  /** With unique nonces a pass always keeps the range. */
  lemma {:induction false} PassKeepsRanged(st: State, p: Pool, q: Pool, a: Address)
    requires Filed(p) && Unique(p) && Ranged(p, a) && p.managed.base.nonce(a) <= st.nonce(a)
    requires q.managed.base == p.managed.base && CheckedFor(st, p, q, a)
    ensures Ranged(q, a) && NoneReady(q, a)
  {
    forall t | t in QueueOf(p.queue, a) && Live(st, t)
      ensures t.nonce >= GetNonce(p.managed, a)
    {
      NothingBelow(st, p, a, t);
    }
    PassKeepsRangeIff(st, p, q, a);
  }

  /** Resubmitting the first of two pending transactions at a higher price: it is accepted
      and promoted beside the old one, and the pending nonce falls back to 1. */
  lemma {:induction false} ReplacementLowersNonce() returns (st: State, p: Pool, t: Tx, q: Pool)
    ensures Inv(p) && Advances(p.managed.base, st) && t !in p.pending && Verdict(st, t, 1, TX_GAS, true) == None
    ensures Checked(st, Queued(p, t), q)
    ensures GetNonce(p.managed, t.from) == 2 && GetNonce(q.managed, t.from) == 1 && !Ranged(q, t.from)
  {
    var t0, t1 := Tx(1, 7, true, 0, 1, TX_GAS, 0, [], false), Tx(2, 7, true, 1, 1, TX_GAS, 0, [], false);
    t := Tx(3, 7, true, 0, 2, TX_GAS, 0, [], false);
    st := State(_ => 0, _ => 2 * TX_GAS, _ => true);
    assert Intrinsic(t.data, t.creates, true) == TX_GAS;
    p := Pool({t0, t1}, map[], Managed(st, map[7 := 2]));
    var o := Queued(p, t);
    q := Pool({t0, t1, t}, map[], Managed(st, map[7 := 1]));
    TwoPending(st, p, t0, t1);
    ReplacementPromoted(st, p, t0, t1, t, q);
    assert t1 in q.pending && HasPending(q, 7, 1);
  }

  lemma {:induction false} ReplacementPromoted(st: State, p: Pool, t0: Tx, t1: Tx, t: Tx, q: Pool)
    requires st.nonce(7) == 0 && st.balance(7) >= Cost(t)
    requires t0.from == t1.from == t.from == 7 && t0.nonce == t.nonce == 0 && t1.nonce == 1 && t != t0 && t != t1
    requires p == Pool({t0, t1}, map[], Managed(st, map[7 := 2]))
    requires q == Pool({t0, t1, t}, map[], Managed(st, map[7 := 1]))
    ensures Checked(st, Queued(p, t), q)
  {
    var o := Queued(p, t);
    forall a
      ensures CheckedFor(st, o, q, a)
    {
      if a == 7 {
        assert LastBelow(st, o, 7, 2, t);
        assert Promotion(st, o, q, 7, 2);
      } else {
        assert Promotion(st, o, q, a, GetNonce(o.managed, a));
      }
    }
  }

  lemma {:induction false} TwoPending(st: State, p: Pool, t0: Tx, t1: Tx)
    requires t0.from == t1.from == 7 && t0.nonce == 0 && t1.nonce == 1 && (forall a :: st.nonce(a) == 0)
    requires p == Pool({t0, t1}, map[], Managed(st, map[7 := 2]))
    ensures Inv(p)
  {
    assert t0 in p.pending && t1 in p.pending;
    assert HasPending(p, 7, 0) && HasPending(p, 7, 1);
    forall a: Address
      ensures Ranged(p, a)
    {
    }
  }

  // ---- A second pass changes nothing ----

  lemma {:induction false} PassIsStable(st: State, p: Pool, m: Pool, q: Pool, a: Address)
    requires Filed(p) && CheckedFor(st, p, m, a) && CheckedFor(st, m, q, a)
    ensures QueueOf(q.queue, a) == QueueOf(m.queue, a) && GetNonce(q.managed, a) == GetNonce(m.managed, a)
    ensures forall t: Tx | t.from == a :: t in q.pending <==> t in m.pending
  {
    var end :| Promotion(st, p, m, a, end);
    var end' :| Promotion(st, m, q, a, end');
    var g := GetNonce(m.managed, a);
    assert g <= end;
    assert end' == g by {
      assert g < end' ==> HasLive(st, m, a, g);
    }
    if QueueOf(q.queue, a) != QueueOf(m.queue, a) {
      var t :| t in QueueOf(m.queue, a) && t !in QueueOf(q.queue, a);
      ProperCount(QueueOf(q.queue, a), QueueOf(m.queue, a), t);
      assert false;
    }
  }

  // ---- Resetting to a new state keeps the invariant ----

  lemma {:induction false} ValidatedFiled(st: State, p: Pool, v: Pool)
    requires Filed(p) && Unique(p) && Validated(st, p, v)
    ensures Filed(v) && Unique(v)
  {
    forall t | InPool(v, t)
      ensures InPool(p, t)
    {
    }
  }

  /** What stays pending has no holes: below a kept nonce everything from the state's
      nonce on is kept. */
  lemma {:induction false} KeptBelow(st: State, p: Pool, v: Pool, t: Tx, n: nat)
    requires Ranged(p, t.from) && p.managed.base.nonce(t.from) <= st.nonce(t.from)
    requires Validated(st, p, v) && t in v.pending && st.nonce(t.from) <= n <= t.nonce
    ensures HasPending(v, t.from, n)
  {
    assert HasPending(p, t.from, t.nonce);
    assert HasPending(p, t.from, n);
    var u :| u in p.pending && u.from == t.from && u.nonce == n;
    assert !Gapped(st, p.pending, t);
    assert !Gapped(st, p.pending, u);
    assert u in v.pending;
  }

  lemma {:induction false} RebasedRanged(st: State, p: Pool, v: Pool, r: Pool, a: Address)
    requires Ranged(p, a) && p.managed.base.nonce(a) <= st.nonce(a)
    requires Validated(st, p, v) && Rebased(st, v, r)
    ensures Ranged(r, a)
  {
    var lo, hi := st.nonce(a), GetNonce(r.managed, a);
    if lo < hi {
      var top :| top in v.pending && top.from == a && top.nonce + 1 == hi;
      forall n: nat | lo <= n < hi
        ensures HasPending(r, a, n)
      {
        KeptBelow(st, p, v, top, n);
        var t :| t in v.pending && t.from == a && t.nonce == n;
        assert t in r.pending;
      }
    }
    forall n: nat | HasPending(r, a, n)
      ensures lo <= n < hi
    {
      var t :| t in r.pending && t.from == a && t.nonce == n;
      assert t in v.pending && Live(st, t);
    }
  }

  lemma {:induction false} ResetKeepsInv(st: State, p: Pool, q: Pool)
    requires Inv(p) && Advances(p.managed.base, st) && Reset(st, p, q)
    ensures Inv(q) && q.managed.base == st
  {
    var v, r :| Validated(st, p, v) && Rebased(st, v, r) && Checked(st, r, q);
    ValidatedFiled(st, p, v);
    assert Filed(r) && Unique(r) by {
      assert forall t {:trigger InPool(r, t)} :: InPool(r, t) <==> InPool(v, t);
    }
    PassKeepsFiled(st, r, q);
    forall a
      ensures Ranged(q, a) && NoneReady(q, a)
    {
      assert Ranged(p, a);
      RebasedRanged(st, p, v, r, a);
      assert CheckedFor(st, r, q, a);
      PassKeepsRanged(st, r, q, a);
    }
  }

  // ---- Accepting transactions keeps the invariant ----

  ghost function Offered(p: Pool, txs: seq<Tx>): (q: Pool) {
    if txs == [] then p else Queued(Offered(p, txs[..|txs| - 1]), txs[|txs| - 1])
  }

  lemma {:induction false} QueuedFiled(p: Pool, t: Tx)
    requires Filed(p) && t !in p.pending
    ensures Filed(Queued(p, t))
    ensures forall a :: QueueOf(Queued(p, t).queue, a) == QueueOf(p.queue, a) + if a == t.from then {t} else {}
  {
    forall a, u | u in QueueOf(Queued(p, t).queue, a)
      ensures u.from == a && u !in p.pending
    {
      assert u in QueueOf(p.queue, a) || u == t;
    }
    assert t in Queued(p, t).queue[t.from];
  }

  lemma {:induction false} OfferedShape(p: Pool, txs: seq<Tx>)
    requires Filed(p) && forall i | 0 <= i < |txs| :: txs[i] !in p.pending
    ensures Filed(Offered(p, txs)) && Offered(p, txs).pending == p.pending && Offered(p, txs).managed == p.managed
  {
    if txs != [] {
      OfferedShape(p, txs[..|txs| - 1]);
      QueuedFiled(Offered(p, txs[..|txs| - 1]), txs[|txs| - 1]);
    }
  }

  lemma {:induction false} ArriveKeepsInv(st: State, p: Pool, txs: seq<Tx>, q: Pool)
    requires Inv(p) && Advances(p.managed.base, st) && forall i | 0 <= i < |txs| :: txs[i] !in p.pending
    requires Unique(Offered(p, txs)) && Checked(st, Offered(p, txs), q)
    ensures Inv(q) && q.managed.base == p.managed.base
  {
    var o := Offered(p, txs);
    OfferedShape(p, txs);
    PassKeepsFiled(st, o, q);
    forall a
      ensures Ranged(q, a) && NoneReady(q, a)
    {
      assert Ranged(p, a);
      RangedSame(p, o, a);
      assert CheckedFor(st, o, q, a);
      PassKeepsRanged(st, o, q, a);
    }
  }

  lemma {:induction false} RangedSame(p: Pool, o: Pool, a: Address)
    requires Ranged(p, a) && o.pending == p.pending && o.managed == p.managed
    ensures Ranged(o, a)
  {
    forall n: nat
      ensures HasPending(o, a, n) <==> HasPending(p, a, n)
    {
    }
  }

  /** An accepted transaction is live, so the pass right after it does not drop it: it
      becomes pending if its nonce is next, and otherwise stays queued unless 64
      transactions with no higher nonces do. */
  lemma {:induction false} AcceptedIsPlaced(st: State, p: Pool, t: Tx, minGasPrice: nat, gasLimit: nat,
                                            homestead: bool, q: Pool)
    requires Verdict(st, t, minGasPrice, gasLimit, homestead).None? && Checked(st, Queued(p, t), q)
    ensures t.nonce == GetNonce(p.managed, t.from) ==> t in q.pending
    ensures t in q.pending || t in QueueOf(q.queue, t.from)
            || (|QueueOf(q.queue, t.from)| == 64 && forall k | k in QueueOf(q.queue, t.from) ::
              k.nonce <= t.nonce)
  {
    var o := Queued(p, t);
    assert CheckedFor(st, o, q, t.from);
    var end :| Promotion(st, o, q, t.from, end);
    assert t in QueueOf(o.queue, t.from) && Live(st, t);
    assert HasLive(st, o, t.from, t.nonce);
  }

  // ---- Whole runs ----

  /** Accepted transactions arriving together, or a new chain head. */
  datatype Op = Arrive(txs: seq<Tx>, st: State) | NewHead(st: State)

  /** One operation of a run in which state nonces only advance and no two transactions
      of the pool share sender and nonce. */
  ghost predicate Next(p: Pool, op: Op, q: Pool) {
    && Advances(p.managed.base, op.st)
    && match op
       case NewHead(st) => Reset(st, p, q)
       case Arrive(txs, st) =>
         && (forall i | 0 <= i < |txs| :: txs[i] !in p.pending)
         && Unique(Offered(p, txs)) && Checked(st, Offered(p, txs), q)
  }

  /** After every operation of every run, each sender's pending nonces are exactly those
      between the state's and the pool's nonce, and no queued one is ready. */
  lemma {:induction false} RunKeepsInv(ps: seq<Pool>, ops: seq<Op>, k: nat)
    requires |ps| == |ops| + 1 && Inv(ps[0])
    requires forall i {:trigger ops[i]} | 0 <= i < |ops| :: Next(ps[i], ops[i], ps[i + 1])
    requires k < |ps|
    ensures Inv(ps[k])
  {
    if k > 0 {
      RunKeepsInv(ps, ops, k - 1);
      var op := ops[k - 1];
      match op
      case NewHead(st) => ResetKeepsInv(st, ps[k - 1], ps[k]);
      case Arrive(txs, st) => ArriveKeepsInv(st, ps[k - 1], txs, ps[k]);
    }
  }

  lemma {:induction false} EmptyPoolInv(st: State)
    ensures Inv(Pool({}, map[], Managed(st, map[])))
  {
  }

  // ---- Handing out transactions ----

  /** Listing the pending transactions promotes and validates against the current state
      but leaves the pending nonces: the ranges survive exactly when every pending
      transaction is still live. */
  lemma {:induction false} ListingKeepsRangesIff(st: State, p: Pool, m: Pool, q: Pool)
    requires Inv(p) && Advances(p.managed.base, st) && Checked(st, p, m) && Validated(st, m, q)
    ensures (forall a :: Ranged(q, a)) <==> (forall t | t in p.pending :: Live(st, t))
  {
    PassKeepsFiled(st, p, m);
    forall a
      ensures Ranged(m, a)
    {
      assert Ranged(p, a) && CheckedFor(st, p, m, a);
      PassKeepsRanged(st, p, m, a);
    }
    if t :| t in p.pending && !Live(st, t) {
      assert CheckedFor(st, p, m, t.from);
      DroppedLeavesHole(st, m, q, t);
    } else {
      forall t | t in m.pending
        ensures Live(st, t)
      {
        assert CheckedFor(st, p, m, t.from);
      }
      assert q.pending == m.pending;
      forall a
        ensures Ranged(q, a)
      {
        RangedSame(m, q, a);
      }
    }
  }

  lemma {:induction false} DroppedLeavesHole(st: State, m: Pool, q: Pool, t: Tx)
    requires Unique(m) && Ranged(m, t.from) && Validated(st, m, q) && t in m.pending && !Live(st, t)
    ensures !Ranged(q, t.from)
  {
    assert HasPending(m, t.from, t.nonce);
    assert !HasPending(q, t.from, t.nonce) by {
      forall u | u in q.pending && u.from == t.from && u.nonce == t.nonce
        ensures false
      {
        assert InPool(m, u) && InPool(m, t);
      }
    }
    assert q.managed == m.managed;
  }

  /** An account drained between two heads: its only pending transaction goes, while the
      pool keeps counting on it. */
  lemma {:induction false} ListingLeavesHole()
    ensures exists st, p, q ::
            Inv(p) && Advances(p.managed.base, st) && Checked(st, p, p) && Validated(st, p, q) && !Ranged(q, 7)
  {
    var t := Tx(1, 7, true, 0, 1, TX_GAS, 0, [], false);
    var rich, poor := State(_ => 0, _ => TX_GAS, _ => true), State(_ => 0, _ => 0, _ => true);
    var p := Pool({t}, map[], Managed(rich, map[7 := 1]));
    var q := p.(pending := {});
    assert Inv(p) by {
      forall a: Address
        ensures Ranged(p, a)
      {
        assert t in p.pending;
        assert HasPending(p, 7, 0);
      }
    }
    forall a
      ensures CheckedFor(poor, p, p, a)
    {
      assert Promotion(poor, p, p, a, GetNonce(p.managed, a));
    }
    assert Checked(poor, p, p);
    assert Validated(poor, p, q);
    assert t in p.pending && !Live(poor, t);
    DroppedLeavesHole(poor, p, q, t);
  }
}
