/** The transaction pool, updated in place. Iteration over its maps picks any order. */
module PoolManager {
  import opened Lineage
  import opened PoolSpec

  ghost predicate Sorted(s: seq<Tx>) {
    forall i, j | 0 <= i <= j < |s| :: s[i].nonce <= s[j].nonce
  }

  ghost predicate Distinct(s: seq<Tx>) {
    forall i, j | 0 <= i < j < |s| :: s[i] != s[j]
  }

  /** `s` lists the set `txs` by nonce, in any order among equal nonces. */
  ghost predicate Lists(s: seq<Tx>, txs: set<Tx>) {
    Sorted(s) && Distinct(s) && forall t :: t in s <==> t in txs
  }

  method PickLowest(txs: set<Tx>) returns (low: Tx)
    requires txs != {}
    ensures low in txs && forall t | t in txs :: low.nonce <= t.nonce
  {
    low :| low in txs;
    var rest := txs - {low};
    while rest != {}
      invariant rest <= txs && low in txs
      invariant forall t | t in txs - rest :: low.nonce <= t.nonce
      decreases rest
    {
      var t :| t in rest;
      rest := rest - {t};
      if t.nonce < low.nonce {
        low := t;
      }
    }
  }

  method SortByNonce(txs: set<Tx>) returns (s: seq<Tx>)
    ensures Lists(s, txs)
  {
    s := [];
    var rest := txs;
    while rest != {}
      invariant rest <= txs && Lists(s, txs - rest)
      invariant forall i, t | 0 <= i < |s| && t in rest :: s[i].nonce <= t.nonce
      decreases rest
    {
      var low := PickLowest(rest);
      ghost var before := s;
      s := s + [low];
      rest := rest - {low};
      forall t
        ensures t in s <==> t in txs - rest
      {
        assert t in s <==> t in before || t == low;
      }
    }
  }

  ghost function Elements(s: seq<Tx>): (e: set<Tx>) {
    set t | t in s
  }

  lemma {:induction false} ElementsSnoc(s: seq<Tx>, i: nat)
    requires Distinct(s) && i < |s|
    ensures Elements(s[..i + 1]) == Elements(s[..i]) + {s[i]} && s[i] !in Elements(s[..i]) && s[i] in s
  {
    assert s[..i + 1] == s[..i] + [s[i]];
  }

  lemma {:induction false} ElementsCount(s: seq<Tx>)
    requires Distinct(s)
    ensures |Elements(s)| == |s|
  {
    if s != [] {
      var n := |s| - 1;
      ElementsCount(s[..n]);
      ElementsSnoc(s, n);
      assert s[..n + 1] == s;
    }
  }

  ghost predicate HasNonce(s: seq<Tx>, n: nat) {
    exists k :: 0 <= k < |s| && s[k].nonce == n
  }

  /** How far the promotion of the sorted list `s` from nonce `g` got: the first `i` of
      them were promoted and `end` is the next nonce wanted. */
  ghost predicate Stops(s: seq<Tx>, g: nat, i: nat, end: nat) {
    && i <= |s| && g <= end
    && (forall k | 0 <= k < i :: s[k].nonce < end)
    && (forall n | g <= n < end :: HasNonce(s[..i], n))
    && (end > g ==> i > 0 && s[i - 1].nonce + 1 == end)
  }

  lemma {:induction false} StopsNext(s: seq<Tx>, g: nat, i: nat, end: nat)
    requires Stops(s, g, i, end) && i < |s| && s[i].nonce <= end && Sorted(s)
    ensures Stops(s, g, i + 1, if s[i].nonce == end then end + 1 else end)
  {
    var end' := if s[i].nonce == end then end + 1 else end;
    var done := s[..i + 1];
    forall n | g <= n < end'
      ensures HasNonce(done, n)
    {
      if n < end {
        assert HasNonce(s[..i], n);
        var k :| 0 <= k < i && s[..i][k].nonce == n;
        assert done[k].nonce == n;
      } else {
        assert done[i].nonce == n;
      }
    }
  }

  /** The pool before and after promoting `s[..i]` and keeping `s[i..stop]` of sender `a`. */
  ghost predicate Moved(p: Pool, q: Pool, a: Address, s: seq<Tx>, i: nat, stop: nat)
    requires i <= stop <= |s|
  {
    && q.pending == p.pending + Elements(s[..i])
    && QueueOf(q.queue, a) == Elements(s[i..stop])
    && GetNonce(q.managed, a) == if i == 0 then GetNonce(p.managed, a) else s[i - 1].nonce + 1
  }

  lemma {:induction false} MovedPromoted(st: State, p: Pool, q: Pool, a: Address, s: seq<Tx>, i: nat, stop: nat,
                                         end: nat)
    requires forall t :: t in s <==> t in QueueOf(p.queue, a) && Live(st, t)
    requires Stops(s, GetNonce(p.managed, a), i, end) && Sorted(s) && (i < |s| ==> s[i].nonce > end)
    requires i <= stop <= |s| && Moved(p, q, a, s, i, stop)
    ensures Run(st, p, a, end) && Promoted(st, p, q, a, end)
  {
    forall n | GetNonce(p.managed, a) <= n < end
      ensures HasLive(st, p, a, n)
    {
      assert HasNonce(s[..i], n);
      var k :| 0 <= k < i && s[..i][k].nonce == n;
      assert s[k] in s;
    }
    forall t | t in s
      ensures t in s[..i] <==> t.nonce < end
      ensures t.nonce != end
    {
      var k :| 0 <= k < |s| && s[k] == t;
      if k < i {
        assert s[..i][k] == t;
      }
    }
  }

  lemma {:induction false} MovedGuessed(st: State, p: Pool, q: Pool, a: Address, s: seq<Tx>, i: nat, stop: nat,
                                        end: nat)
    requires forall t :: t in s <==> t in QueueOf(p.queue, a) && Live(st, t)
    requires Stops(s, GetNonce(p.managed, a), i, end) && Sorted(s) && (i < |s| ==> s[i].nonce > end)
    requires i <= stop <= |s| && Moved(p, q, a, s, i, stop)
    ensures Guessed(st, p, q, a, end)
  {
    var g := GetNonce(p.managed, a);
    if end == g {
      if i > 0 {
        var last := s[i - 1];
        assert last in s && last.nonce < g;
        forall u | u in QueueOf(p.queue, a) && Live(st, u) && u.nonce < g
          ensures u.nonce <= last.nonce
        {
          var k :| 0 <= k < |s| && s[k] == u;
        }
        assert LastBelow(st, p, a, g, last);
      } else {
        forall t | t in QueueOf(p.queue, a) && Live(st, t)
          ensures t.nonce >= g
        {
          var k :| 0 <= k < |s| && s[k] == t;
        }
      }
    }
  }

  lemma {:induction false} MovedCapped(st: State, p: Pool, q: Pool, a: Address, s: seq<Tx>, i: nat, stop: nat, end: nat)
    requires forall t :: t in s <==> t in QueueOf(p.queue, a) && Live(st, t)
    requires i <= stop <= |s| && QueueOf(q.queue, a) == Elements(s[i..stop])
    requires Sorted(s) && Distinct(s) && (i < |s| ==> s[i].nonce > end) && forall k | 0 <= k < i :: s[k].nonce < end
    requires stop == if |s| - i > MAX_QUEUED then i + MAX_QUEUED else |s|
    ensures Capped(st, p, q, a, end)
  {
    ElementsCount(s[i..stop]);
    var kept := s[i..stop];
    forall t | t in kept
      ensures t in s && t.nonce > end
    {
      InSlice(s, i, stop, t);
    }
    forall t | t in s && t !in kept && t.nonce > end
      ensures stop < |s| && forall k | k in kept :: k.nonce <= t.nonce
    {
      InSlice(s, i, stop, t);
      forall k | k in kept
        ensures k.nonce <= t.nonce
      {
        InSlice(s, i, stop, k);
      }
    }
  }

  lemma {:induction false} InSlice(s: seq<Tx>, i: nat, stop: nat, t: Tx)
    requires i <= stop <= |s|
    ensures t in s[i..stop] <==> exists j :: i <= j < stop && s[j] == t
  {
    if j :| i <= j < stop && s[j] == t {
      assert s[i..stop][j - i] == t;
    }
  }

  lemma {:induction false} MovedChecked(st: State, p: Pool, q: Pool, a: Address, s: seq<Tx>, i: nat, stop: nat,
                                        end: nat)
    requires forall t :: t in s <==> t in QueueOf(p.queue, a) && Live(st, t)
    requires Stops(s, GetNonce(p.managed, a), i, end) && Sorted(s) && Distinct(s) && (i < |s| ==> s[i].nonce > end)
    requires i <= stop <= |s| && stop == if |s| - i > MAX_QUEUED then i + MAX_QUEUED else |s|
    requires Moved(p, q, a, s, i, stop)
    ensures CheckedFor(st, p, q, a)
  {
    MovedPromoted(st, p, q, a, s, i, stop, end);
    MovedGuessed(st, p, q, a, s, i, stop, end);
    MovedCapped(st, p, q, a, s, i, stop, end);
    assert Promotion(st, p, q, a, end);
  }

  lemma {:induction false} SliceRest(s: seq<Tx>, i: nat, stop: nat, live: set<Tx>)
    requires Distinct(s) && i <= stop <= |s| && forall t :: t in s <==> t in live
    ensures live - Elements(s[..i]) - Elements(s[stop..]) == Elements(s[i..stop])
  {
    forall t
      ensures t in live - Elements(s[..i]) - Elements(s[stop..]) <==> t in s[i..stop]
    {
      InSlice(s, 0, i, t);
      InSlice(s, i, stop, t);
      InSlice(s, stop, |s|, t);
    }
  }

  /** Sender `a` has the same pending and queued transactions and the same nonce. */
  ghost predicate SameFor(p: Pool, q: Pool, a: Address) {
    && QueueOf(q.queue, a) == QueueOf(p.queue, a)
    && GetNonce(q.managed, a) == GetNonce(p.managed, a)
    && forall t: Tx | t.from == a :: t in q.pending <==> t in p.pending
  }

  lemma {:induction false} MovedElsewhere(p: Pool, q: Pool, a: Address, s: seq<Tx>)
    requires q.pending == p.pending + Elements(s) && forall t | t in s :: t.from == a
    requires forall b | b != a :: QueueOf(q.queue, b) == QueueOf(p.queue, b)
    requires forall b | b != a :: GetNonce(q.managed, b) == GetNonce(p.managed, b)
    ensures forall b | b != a :: SameFor(p, q, b)
  {
  }

  lemma {:induction false} IdleChecked(st: State, p: Pool, a: Address)
    requires a !in p.queue
    ensures CheckedFor(st, p, p, a)
  {
    assert Promotion(st, p, p, a, GetNonce(p.managed, a));
  }

  lemma {:induction false} CheckedAfterSame(st: State, p: Pool, m: Pool, q: Pool, a: Address)
    requires SameFor(p, m, a) && CheckedFor(st, m, q, a)
    ensures CheckedFor(st, p, q, a)
  {
    var end :| Promotion(st, m, q, a, end);
    assert forall n :: HasLive(st, p, a, n) <==> HasLive(st, m, a, n);
    var g := GetNonce(m.managed, a);
    if t :| LastBelow(st, m, a, g, t) && GetNonce(q.managed, a) == t.nonce + 1 {
      assert LastBelow(st, p, a, g, t);
    }
    assert Promotion(st, p, q, a, end);
  }

  lemma {:induction false} SameAfterChecked(st: State, p: Pool, m: Pool, q: Pool, a: Address)
    requires CheckedFor(st, p, m, a) && SameFor(m, q, a)
    ensures CheckedFor(st, p, q, a)
  {
    var end :| Promotion(st, p, m, a, end);
    assert Promotion(st, p, q, a, end);
  }

  lemma {:induction false} FiledFor(st: State, p: Pool, q: Pool, a: Address, t: Tx)
    requires Filed(p) && (CheckedFor(st, p, q, a) || SameFor(p, q, a)) && t in QueueOf(q.queue, a)
    ensures t.from == a && t !in q.pending
  {
  }

  lemma {:induction false} FiledMidway(st: State, p: Pool, m: Pool, a: Address, todo: set<Address>)
    requires Filed(p) && SameFor(p, m, a) && forall b | b in m.queue :: m.queue[b] != {}
    requires forall b {:trigger SameFor(p, m, b)} | b in todo :: SameFor(p, m, b)
    requires forall b {:trigger CheckedFor(st, p, m, b)} | b !in todo && b != a :: CheckedFor(st, p, m, b)
    ensures Filed(m)
  {
    forall b, t | t in QueueOf(m.queue, b)
      ensures t.from == b && t !in m.pending
    {
      assert b in todo ==> SameFor(p, m, b);
      FiledFor(st, p, m, b, t);
    }
  }

  lemma {:induction false} FiledAfter(st: State, p: Pool, q: Pool)
    requires Filed(p) && (forall b | b in q.queue :: q.queue[b] != {})
    requires forall b {:trigger CheckedFor(st, p, q, b)} :: CheckedFor(st, p, q, b)
    ensures Filed(q)
  {
    forall b, t | t in QueueOf(q.queue, b)
      ensures t.from == b && t !in q.pending
    {
      FiledFor(st, p, q, b, t);
    }
  }

  /** Not processed yet, but out of funds. */
  predicate Broke(st: State, t: Tx) {
    t.nonce >= st.nonce(t.from) && !Affordable(st, t)
  }

  /** `gaps` holds the least nonce per sender among the broke transactions of `done`. */
  ghost predicate Least(st: State, done: set<Tx>, gaps: map<Address, nat>) {
    && (forall u | u in done && Broke(st, u) :: u.from in gaps && gaps[u.from] <= u.nonce)
    && (forall a | a in gaps :: exists u :: u in done && Broke(st, u) && u.from == a && u.nonce == gaps[a])
  }

  predicate Beyond(gaps: map<Address, nat>, t: Tx) {
    t.from in gaps && t.nonce >= gaps[t.from]
  }

  lemma {:induction false} LeastGrows(st: State, done: set<Tx>, gaps: map<Address, nat>, t: Tx)
    requires Least(st, done, gaps) && Broke(st, t)
    ensures Least(st, done + {t}, if t.from !in gaps || t.nonce < gaps[t.from] then gaps[t.from := t.nonce] else gaps)
  {
    var gaps' := if t.from !in gaps || t.nonce < gaps[t.from] then gaps[t.from := t.nonce] else gaps;
    forall a | a in gaps'
      ensures exists u :: u in done + {t} && Broke(st, u) && u.from == a && u.nonce == gaps'[a]
    {
      if a in gaps && gaps'[a] == gaps[a] {
        var u :| u in done && Broke(st, u) && u.from == a && u.nonce == gaps[a];
        assert u in done + {t};
      } else {
        assert t in done + {t};
      }
    }
  }

  lemma {:induction false} BeyondIsGapped(st: State, p: Pool, gaps: map<Address, nat>, t: Tx)
    requires Least(st, p.pending, gaps)
    ensures Beyond(gaps, t) <==> Gapped(st, p.pending, t)
  {
    if Beyond(gaps, t) {
      var u :| u in p.pending && Broke(st, u) && u.from == t.from && u.nonce == gaps[t.from];
    }
  }

  lemma {:induction false} SiftedIsValidated(st: State, p: Pool, q: Pool, gaps: map<Address, nat>)
    requires Filed(p) && Least(st, p.pending, gaps) && q.managed == p.managed
    requires forall t :: t in q.pending <==> t in p.pending && Live(st, t) && !Beyond(gaps, t)
    requires forall a, t {:trigger t in QueueOf(q.queue, a)} {:trigger t in QueueOf(p.queue, a)} ::
               t in QueueOf(q.queue, a) <==>
               t in QueueOf(p.queue, a) || (t.from == a && t in p.pending && Live(st, t) && Beyond(gaps, t))
    requires forall a | a in q.queue :: q.queue[a] != {}
    ensures Validated(st, p, q) && Filed(q)
  {
    forall t
      ensures Beyond(gaps, t) <==> Gapped(st, p.pending, t)
    {
      BeyondIsGapped(st, p, gaps, t);
    }
  }

  /** Validation does not look at the pool's nonces. */
  lemma {:induction false} ValidatedAlike(st: State, p: Pool, m: Managed, v: Pool)
    requires Validated(st, p.(managed := m), v.(managed := m)) && v.managed == p.managed
    ensures Validated(st, p, v)
    ensures forall t | t in v.pending :: t.nonce >= st.nonce(t.from)
  {
    var p', v' := p.(managed := m), v.(managed := m);
    assert p'.pending == p.pending && v'.queue == v.queue;
    forall a, t
      ensures t in QueueOf(v.queue, a) <==>
              t in QueueOf(p.queue, a) || (t.from == a && t in p.pending && Live(st, t) && Gapped(st, p.pending, t))
    {
      assert t in QueueOf(v'.queue, a) <==>
             t in QueueOf(p'.queue, a) || (t.from == a && t in p'.pending && Live(st, t) && Gapped(st, p'.pending, t));
    }
  }

  lemma {:induction false} ResetInStages(st: State, p: Pool, v: Pool, r: Pool, q: Pool)
    requires Validated(st, p, v) && Rebased(st, v.(managed := Managed(st, map[])), r) && Checked(st, r, q)
    ensures Reset(st, p, q)
  {
    assert Rebased(st, v, r);
  }

  /** `n` is the state's nonce or right behind the highest nonce of `a` in `done`. */
  ghost predicate Behind(st: State, done: set<Tx>, a: Address, n: nat) {
    && st.nonce(a) <= n
    && (forall t | t in done && t.from == a :: t.nonce < n)
    && (n == st.nonce(a) || exists t :: t in done && t.from == a && t.nonce + 1 == n)
  }

  lemma {:induction false} BehindGrows(st: State, done: set<Tx>, a: Address, n: nat, t: Tx)
    requires Behind(st, done, a, n) && t.nonce >= st.nonce(t.from)
    ensures Behind(st, done + {t}, a, if a == t.from && n <= t.nonce then t.nonce + 1 else n)
  {
    if a == t.from && n <= t.nonce {
      assert t in done + {t};
    } else if u :| u in done && u.from == a && u.nonce + 1 == n {
      assert u in done + {t};
    }
  }

  /** Before the first state a reset does nothing but check the queue. */
  lemma {:induction false} FirstReset(st: State, p: Pool, m: Pool)
    requires p.pending == {} && p.managed == Managed(st, map[]) && Reset(st, p, m)
    ensures Checked(st, p, m)
  {
    var v, r :| Validated(st, p, v) && Rebased(st, v, r) && Checked(st, r, m);
    forall a
      ensures CheckedFor(st, p, m, a)
    {
      SameQueue(st, p, v, a);
      assert SameFor(p, r, a);
      assert CheckedFor(st, r, m, a);
      CheckedAfterSame(st, p, r, m, a);
    }
  }

  lemma {:induction false} SameQueue(st: State, p: Pool, v: Pool, a: Address)
    requires p.pending == {} && Validated(st, p, v)
    ensures v.pending == {} && QueueOf(v.queue, a) == QueueOf(p.queue, a)
  {
  }

  /** A pass right after a pass changes nothing, so two passes are one. */
  lemma {:induction false} TwicePassed(st: State, p: Pool, m: Pool, q: Pool)
    requires Filed(p) && Checked(st, p, m) && Checked(st, m, q)
    ensures Checked(st, p, q)
  {
    forall a
      ensures CheckedFor(st, p, q, a)
    {
      assert CheckedFor(st, p, m, a) && CheckedFor(st, m, q, a);
      PassIsStable(st, p, m, q, a);
      assert SameFor(m, q, a);
      SameAfterChecked(st, p, m, q, a);
    }
  }

  lemma {:induction false} OnlyUnder(pending: set<Tx>, queue: map<Address, set<Tx>>, tx: Tx, a: Address)
    requires Tidy(pending, queue) && tx in QueueOf(queue, a)
    ensures forall b | b != a :: tx !in QueueOf(queue, b)
  {
  }

  lemma {:induction false} TidyWithout(pending: set<Tx>, queue: map<Address, set<Tx>>, queue': map<Address, set<Tx>>,
                                       tx: Tx)
    requires Tidy(pending, queue) && forall a | a in queue' :: queue'[a] != {}
    requires forall a :: QueueOf(queue', a) == QueueOf(queue, a) - {tx}
    ensures Tidy(pending - {tx}, queue')
  {
    forall a, t | t in QueueOf(queue', a)
      ensures t.from == a && t !in pending
    {
      assert t in QueueOf(queue, a);
    }
  }

  lemma {:induction false} Alone(s: set<Tx>, t: Tx)
    requires |s| == 1 && t in s
    ensures s == {t}
  {
    assert |s - {t}| == 0;
  }

  class TxPool {
    var pending: set<Tx>
    var queue: map<Address, set<Tx>>
    var managed: Option<Managed>
    var minGasPrice: nat
    var homestead: bool

    /** The pool as a value; before the first state arrives the nonces are those of `st`. */
    ghost function At(st: State): (p: Pool)
      reads `pending, `queue, `managed
    {
      Pool(pending, queue, if managed.Some? then managed.value else Managed(st, map[]))
    }

    constructor ()
      ensures pending == {} && queue == map[] && managed.None? && minGasPrice == 0 && !homestead
    {
      pending, queue, managed, minGasPrice, homestead := {}, map[], None, 0, false;
    }

    method QueueTx(tx: Tx)
      modifies `queue
      ensures queue == old(queue)[tx.from := QueueOf(old(queue), tx.from) + {tx}]
    {
      if tx.from !in queue {
        queue := queue[tx.from := {}];
      }
      queue := queue[tx.from := queue[tx.from] + {tx}];
    }

    /** Makes `tx` pending and moves its sender's nonce right behind it. */
    method AddTx(tx: Tx)
      requires managed.Some?
      modifies `pending, `managed
      ensures pending == old(pending) + {tx}
      ensures managed.Some? && managed.value.base == old(managed.value.base)
      ensures forall a ::
               GetNonce(managed.value, a) ==
               if a == tx.from && tx !in old(pending) then tx.nonce + 1 else old(GetNonce(managed.value, a))
    {
      if tx !in pending {
        pending := pending + {tx};
        managed := Some(managed.value.(nonces := managed.value.nonces[tx.from := tx.nonce + 1]));
      }
    }

    /** What is left of a sender's queue without processed or unaffordable transactions. */
    static method DropDead(st: State, a: Address, txs: set<Tx>) returns (live: set<Tx>)
      requires forall t | t in txs :: t.from == a
      ensures forall t :: t in live <==> t in txs && Live(st, t)
    {
      live := txs;
      var balance, trueNonce := st.balance(a), st.nonce(a);
      var rest := txs;
      while rest != {}
        invariant rest <= txs && live <= txs
        invariant forall t | t in txs :: t in live <==> t in rest || Live(st, t)
        decreases rest
      {
        var t :| t in rest;
        rest := rest - {t};
        if t.nonce < trueNonce || balance < Cost(t) {
          live := live - {t};
        }
      }
    }

    /** The first `i` of `s` have moved from the queue to the pending transactions `p` had. */
    ghost predicate Shifted(p: Pool, a: Address, s: seq<Tx>, i: nat, txs: set<Tx>, left: set<Tx>)
      requires i <= |s|
      reads `pending, `managed
    {
      && managed.Some? && managed.value.base == p.managed.base
      && pending == p.pending + Elements(s[..i]) && left == txs - Elements(s[..i])
      && GetNonce(managed.value, a) == (if i == 0 then GetNonce(p.managed, a) else s[i - 1].nonce + 1)
      && forall b | b != a :: GetNonce(managed.value, b) == GetNonce(p.managed, b)
    }

    method PromoteEntry(a: Address, s: seq<Tx>, i: nat, ghost txs: set<Tx>, left: set<Tx>, ghost p: Pool)
      returns (left': set<Tx>)
      requires i < |s| && Distinct(s) && s[i].from == a && s[i] !in p.pending && Shifted(p, a, s, i, txs, left)
      modifies `pending, `managed
      ensures Shifted(p, a, s, i + 1, txs, left')
    {
      ElementsSnoc(s, i);
      AddTx(s[i]);
      left' := left - {s[i]};
    }

    /** One more entry, and the nonce guessed after it. */
    method PromoteNext(a: Address, s: seq<Tx>, i: nat, guessedNonce: nat, ghost txs: set<Tx>, left: set<Tx>,
                       ghost p: Pool)
      returns (guess: nat, left': set<Tx>)
      requires i < |s| && Sorted(s) && Distinct(s) && s[i].from == a && s[i] !in p.pending
      requires s[i].nonce <= guessedNonce && Stops(s, GetNonce(p.managed, a), i, guessedNonce)
      requires Shifted(p, a, s, i, txs, left)
      modifies `pending, `managed
      ensures Stops(s, GetNonce(p.managed, a), i + 1, guess) && Shifted(p, a, s, i + 1, txs, left')
    {
      StopsNext(s, GetNonce(p.managed, a), i, guessedNonce);
      left' := PromoteEntry(a, s, i, txs, left, p);
      guess := if s[i].nonce == guessedNonce then guessedNonce + 1 else guessedNonce;
    }

    /** Promotes from the sorted list until a nonce is missing. */
    method Promote(a: Address, s: seq<Tx>, txs: set<Tx>, ghost p: Pool)
      returns (i: nat, guessedNonce: nat, left: set<Tx>)
      requires managed == Some(p.managed) && pending == p.pending
      requires Sorted(s) && Distinct(s) && forall t | t in s :: t.from == a && t !in p.pending
      modifies `pending, `managed
      ensures Stops(s, GetNonce(p.managed, a), i, guessedNonce) && (i < |s| ==> s[i].nonce > guessedNonce)
      ensures Shifted(p, a, s, i, txs, left)
    {
      guessedNonce := GetNonce(managed.value, a);
      i, left := 0, txs;
      while i < |s|
        invariant Stops(s, GetNonce(p.managed, a), i, guessedNonce)
        invariant Shifted(p, a, s, i, txs, left)
      {
        if s[i].nonce > guessedNonce {
          break;
        }
        guessedNonce, left := PromoteNext(a, s, i, guessedNonce, txs, left, p);
        i := i + 1;
      }
    }

    static method Without(txs: set<Tx>, drop: seq<Tx>) returns (left: set<Tx>)
      ensures left == txs - Elements(drop)
    {
      left := txs;
      for k := 0 to |drop|
        invariant left == txs - Elements(drop[..k])
      {
        left := left - {drop[k]};
        assert drop[..k + 1] == drop[..k] + [drop[k]];
      }
      assert drop[..|drop|] == drop;
    }

    /** Promotes what is next and says what stays queued. */
    method PromoteAndCap(a: Address, s: seq<Tx>, live: set<Tx>, ghost p: Pool)
      returns (left: set<Tx>, ghost i: nat, ghost stop: nat, ghost end: nat)
      requires managed == Some(p.managed) && pending == p.pending
      requires Lists(s, live) && forall t | t in s :: t.from == a && t !in p.pending
      modifies `pending, `managed
      ensures Stops(s, GetNonce(p.managed, a), i, end) && (i < |s| ==> s[i].nonce > end)
      ensures stop == (if |s| - i > MAX_QUEUED then i + MAX_QUEUED else |s|) && left == Elements(s[i..stop])
      ensures Shifted(p, a, s, i, live, live - Elements(s[..i]))
    {
      var n, guessedNonce;
      n, guessedNonce, left := Promote(a, s, live, p);
      i, end := n, guessedNonce;
      stop := if |s| - n > MAX_QUEUED then n + MAX_QUEUED else |s|;
      SliceRest(s, n, stop, live);
      if |s| - n > MAX_QUEUED {
        left := Without(left, s[n + MAX_QUEUED..]);
      }
    }

    /** Writes back a sender's queue, without leaving an empty entry. */
    method Refile(a: Address, left: set<Tx>)
      modifies `queue
      ensures QueueOf(queue, a) == left && (a in queue ==> queue[a] != {})
      ensures forall b | b != a :: QueueOf(queue, b) == QueueOf(old(queue), b) && (b in queue <==> b in old(queue))
    {
      if left == {} {
        queue := queue - {a};
      } else {
        queue := queue[a := left];
      }
    }

    /** The queue of one sender: drop, promote, cap. */
    method CheckSender(st: State, a: Address)
      requires managed.Some? && a in queue && Filed(At(st))
      modifies `pending, `queue, `managed
      ensures managed.Some? && managed.value.base == old(managed.value.base)
      ensures CheckedFor(st, old(At(st)), At(st), a) && (a in queue ==> queue[a] != {})
      ensures forall b | b != a :: SameFor(old(At(st)), At(st), b) && (b in queue <==> b in old(queue))
    {
      ghost var p := At(st);
      assert forall t | t in QueueOf(p.queue, a) :: t.from == a && t !in p.pending;
      var live := DropDead(st, a, queue[a]);
      var s := SortByNonce(live);
      var left, i, stop, end := PromoteAndCap(a, s, live, p);
      Refile(a, left);
      MovedChecked(st, p, At(st), a, s, i, stop, end);
      MovedElsewhere(p, At(st), a, s[..i]);
    }

    /** One pass over all senders in the queue, in any order. */
    method CheckAll(st: State)
      requires managed.Some? && Filed(At(st))
      modifies `pending, `queue, `managed
      ensures managed.Some? && Checked(st, old(At(st)), At(st)) && Filed(At(st))
    {
      ghost var p := At(st);
      var todo := queue.Keys;
      forall a | a !in todo
        ensures CheckedFor(st, p, p, a)
      {
        IdleChecked(st, p, a);
      }
      while todo != {}
        invariant managed.Some? && managed.value.base == p.managed.base && todo <= queue.Keys
        invariant forall a | a in queue :: queue[a] != {}
        invariant forall a {:trigger SameFor(p, At(st), a)} | a in todo :: SameFor(p, At(st), a)
        invariant forall a {:trigger CheckedFor(st, p, At(st), a)} | a !in todo :: CheckedFor(st, p, At(st), a)
        decreases todo
      {
        var a :| a in todo;
        todo := todo - {a};
        CheckNext(st, a, todo, p);
      }
      FiledAfter(st, p, At(st));
    }

    method CheckNext(st: State, a: Address, todo: set<Address>, ghost p: Pool)
      requires managed.Some? && managed.value.base == p.managed.base && a in queue && a !in todo && todo <= queue.Keys
               && Filed(p)
      requires forall b | b in queue :: queue[b] != {}
      requires SameFor(p, At(st), a)
      requires forall b {:trigger SameFor(p, At(st), b)} | b in todo :: SameFor(p, At(st), b)
      requires forall b {:trigger CheckedFor(st, p, At(st), b)} | b !in todo && b != a :: CheckedFor(st, p, At(st), b)
      modifies `pending, `queue, `managed
      ensures managed.Some? && managed.value.base == p.managed.base && todo <= queue.Keys
      ensures forall b | b in queue :: queue[b] != {}
      ensures forall b {:trigger SameFor(p, At(st), b)} | b in todo :: SameFor(p, At(st), b)
      ensures forall b {:trigger CheckedFor(st, p, At(st), b)} | b !in todo :: CheckedFor(st, p, At(st), b)
    {
      ghost var m := At(st);
      FiledMidway(st, p, m, a, todo);
      CheckSender(st, a);
      ghost var q := At(st);
      CheckedAfterSame(st, p, m, q, a);
      forall b | b !in todo && b != a
        ensures CheckedFor(st, p, q, b)
      {
        assert SameFor(m, q, b);
        SameAfterChecked(st, p, m, q, b);
      }
      forall b | b in todo
        ensures SameFor(p, q, b)
      {
        assert SameFor(m, q, b) && SameFor(p, m, b);
      }
    }

    /** Removes processed and unaffordable pending transactions, noting the gaps. */
    method DropPending(st: State) returns (gaps: map<Address, nat>)
      modifies `pending
      ensures forall t :: t in pending <==> t in old(pending) && Live(st, t)
      ensures Least(st, old(pending), gaps)
    {
      gaps := map[];
      var rest := pending;
      while rest != {}
        invariant rest <= old(pending) && forall t :: t in pending <==> t in old(pending) && (t in rest || Live(st, t))
        invariant Least(st, old(pending) - rest, gaps)
        decreases rest
      {
        var t :| t in rest;
        ghost var done := old(pending) - rest;
        rest := rest - {t};
        assert old(pending) - rest == done + {t};
        var past := st.nonce(t.from) > t.nonce;
        if past || st.balance(t.from) < Cost(t) {
          pending := pending - {t};
          if !past {
            LeastGrows(st, done, gaps, t);
            if t.from !in gaps || t.nonce < gaps[t.from] {
              gaps := gaps[t.from := t.nonce];
            }
          }
        }
      }
    }

    /** Queues again every pending transaction at or beyond its sender's gap. */
    method Postpone(gaps: map<Address, nat>)
      modifies `pending, `queue
      ensures forall t :: t in pending <==> t in old(pending) && !Beyond(gaps, t)
      ensures forall a, t {:trigger t in QueueOf(queue, a)} {:trigger t in QueueOf(old(queue), a)} ::
                t in QueueOf(queue, a)
                <==> t in QueueOf(old(queue), a) || (t.from == a && t in old(pending) && Beyond(gaps, t))
      ensures (forall a | a in old(queue) :: old(queue)[a] != {}) ==> forall a | a in queue :: queue[a] != {}
    {
      var rest := pending;
      while rest != {}
        invariant rest <= old(pending) && forall t ::
                                           t in pending <==> t in old(pending) && (t in rest || !Beyond(gaps, t))
        invariant forall a, t {:trigger t in QueueOf(queue, a)} {:trigger t in QueueOf(old(queue), a)} ::
                    t in QueueOf(queue, a)
                    <==> t in QueueOf(old(queue), a) || (t.from == a && t in old(pending) - rest && Beyond(gaps, t))
        invariant (forall a | a in old(queue) :: old(queue)[a] != {}) ==> forall a | a in queue :: queue[a] != {}
        decreases rest
      {
        var t :| t in rest;
        rest := rest - {t};
        if Beyond(gaps, t) {
          QueueOne(t);
          pending := pending - {t};
        }
      }
    }

    method QueueOne(tx: Tx)
      modifies `queue
      ensures forall a, t {:trigger t in QueueOf(queue, a)} {:trigger t in QueueOf(old(queue), a)} ::
                t in QueueOf(queue, a) <==> t in QueueOf(old(queue), a) || (a == tx.from && t == tx)
      ensures (forall a | a in old(queue) :: old(queue)[a] != {}) ==> forall a | a in queue :: queue[a] != {}
    {
      QueueTx(tx);
      assert tx in queue[tx.from];
    }

    method ValidatePool(st: State)
      requires Filed(At(st))
      modifies `pending, `queue
      ensures Validated(st, old(At(st)), At(st)) && Filed(At(st))
    {
      ghost var p := At(st);
      var gaps := DropPending(st);
      if |gaps| > 0 {
        Postpone(gaps);
      }
      SiftedIsValidated(st, p, At(st), gaps);
    }

    /** Sets each sender's nonce right behind its pending transactions. */
    method Rebase(st: State)
      requires managed == Some(Managed(st, map[])) && forall t | t in pending :: t.nonce >= st.nonce(t.from)
      modifies `managed
      ensures managed.Some? && Rebased(st, old(At(st)), At(st))
    {
      var rest := pending;
      while rest != {}
        invariant rest <= pending && managed.Some? && managed.value.base == st
        invariant forall a :: Behind(st, pending - rest, a, GetNonce(managed.value, a))
        decreases rest
      {
        var t :| t in rest;
        ghost var done, m := pending - rest, managed.value;
        rest := rest - {t};
        assert pending - rest == done + {t};
        if GetNonce(managed.value, t.from) <= t.nonce {
          managed := Some(managed.value.(nonces := managed.value.nonces[t.from := t.nonce + 1]));
        }
        forall a
          ensures Behind(st, done + {t}, a, GetNonce(managed.value, a))
        {
          BehindGrows(st, done, a, GetNonce(m, a), t);
        }
      }
      assert pending - rest == pending;
      assert forall a :: Behind(st, pending, a, GetNonce(managed.value, a));
    }

    /** Starts over from a new state. */
    method ResetState(st: State)
      requires Filed(At(st))
      modifies `pending, `queue, `managed
      ensures managed.Some? && Reset(st, old(At(st)), At(st)) && Filed(At(st))
    {
      ghost var p := At(st);
      managed := Some(Managed(st, map[]));
      ValidatePool(st);
      ghost var v := At(st).(managed := p.managed);
      ValidatedAlike(st, p, Managed(st, map[]), v);
      Rebase(st);
      ghost var r := At(st);
      CheckAll(st);
      ResetInStages(st, p, v, r, At(st));
    }

    /** What every public operation keeps: entries are filed, pending and queue are
        disjoint, and nothing is pending before the first state. */
    ghost predicate Valid()
      reads `pending, `queue, `managed
    {
      Tidy(pending, queue) && (managed.None? ==> pending == {})
    }

    method CheckQueue(st: State)
      requires Valid()
      modifies `pending, `queue, `managed
      ensures Valid() && managed.Some? && Checked(st, old(At(st)), At(st))
    {
      ghost var p := At(st);
      ghost var first := managed.None?;
      if managed.None? {
        ResetState(st);
        FirstReset(st, p, At(st));
      }
      ghost var m := At(st);
      CheckAll(st);
      if first {
        TwicePassed(st, p, m, At(st));
      }
    }

    /** Validates and queues one transaction. */
    method Enqueue(tx: Tx, st: State, gasLimit: nat) returns (err: Option<PoolError>)
      requires Valid()
      modifies `queue
      ensures Valid()
      ensures err == if tx in pending then Some(Known) else Verdict(st, tx, minGasPrice, gasLimit, homestead)
      ensures At(st) == if err.Some? then old(At(st)) else Queued(old(At(st)), tx)
    {
      if tx in pending {
        return Some(Known);
      }
      err := Verdict(st, tx, minGasPrice, gasLimit, homestead);
      if err.Some? {
        return;
      }
      QueuedFiled(At(st), tx);
      QueueTx(tx);
    }

    /** Adds a single transaction if it is valid. */
    method Add(tx: Tx, st: State, gasLimit: nat) returns (err: Option<PoolError>)
      requires Valid()
      modifies `pending, `queue, `managed
      ensures Valid()
      ensures err == if tx in old(pending) then Some(Known) else Verdict(st, tx, minGasPrice, gasLimit, homestead)
      ensures err.Some? ==> At(st) == old(At(st))
      ensures err.None? ==> Checked(st, Queued(old(At(st)), tx), At(st))
    {
      err := Enqueue(tx, st, gasLimit);
      if err.Some? {
        return;
      }
      CheckQueue(st);
    }

    /** Queues all valid transactions of `txs`, then checks the queue once. */
    method AddTransactions(txs: seq<Tx>, st: State, gasLimit: nat) returns (ghost accepted: seq<Tx>)
      requires Valid()
      modifies `pending, `queue, `managed
      ensures Valid()
      ensures forall t ::
               t in accepted
               <==> t in txs && t !in old(pending) && Verdict(st, t, minGasPrice, gasLimit, homestead).None?
      ensures Checked(st, Offered(old(At(st)), accepted), At(st))
    {
      accepted := [];
      for i := 0 to |txs|
        invariant Valid() && pending == old(pending) && managed == old(managed)
        invariant At(st) == Offered(old(At(st)), accepted)
        invariant forall t :: t in accepted <==>
                              t in txs[..i] && t !in old(pending)
                                && Verdict(st, t, minGasPrice, gasLimit, homestead).None?
      {
        var err := Enqueue(txs[i], st, gasLimit);
        if err.None? {
          assert (accepted + [txs[i]])[..|accepted|] == accepted;
          accepted := accepted + [txs[i]];
        }
        assert txs[..i + 1] == txs[..i] + [txs[i]];
      }
      assert txs[..|txs|] == txs;
      CheckQueue(st);
    }

    /** A new chain head. */
    method NewHead(st: State, homestead: bool)
      requires Valid()
      modifies this
      ensures Valid() && managed.Some? && Reset(st, old(At(st)), At(st))
      ensures this.homestead == (old(this.homestead) || homestead) && minGasPrice == old(minGasPrice)
    {
      if homestead {
        this.homestead := true;
      }
      ResetState(st);
    }

    /** The processable transactions, after another pass and another validation. */
    method GetTransactions(st: State) returns (txs: set<Tx>, ghost passed: Pool)
      requires Valid()
      modifies `pending, `queue, `managed
      ensures Valid() && txs == pending
      ensures Checked(st, old(At(st)), passed) && Validated(st, passed, At(st))
    {
      CheckQueue(st);
      passed := At(st);
      ValidatePool(st);
      txs := pending;
    }

    /** Removes one transaction wherever it is. */
    method RemoveTx(tx: Tx)
      requires Valid()
      modifies `pending, `queue
      ensures Valid() && pending == old(pending) - {tx}
      ensures forall a :: QueueOf(queue, a) == QueueOf(old(queue), a) - {tx}
    {
      pending := pending - {tx};
      var rest := queue.Keys;
      while rest != {}
        invariant rest <= queue.Keys && queue == old(queue)
        invariant forall a | a in queue && a !in rest :: tx !in queue[a]
        decreases rest
      {
        var a :| a in rest;
        rest := rest - {a};
        if tx in queue[a] {
          OnlyUnder(old(pending), queue, tx, a);
          if |queue[a]| == 1 {
            Alone(queue[a], tx);
            queue := queue - {a};
          } else {
            assert queue[a] != {tx};
            queue := queue[a := queue[a] - {tx}];
          }
          TidyWithout(old(pending), old(queue), queue, tx);
          return;
        }
      }
      TidyWithout(old(pending), old(queue), queue, tx);
    }
  }
}
