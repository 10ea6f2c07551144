/** Account balances and their total. */
module Ledger {
  import opened Lineage

  type Balances = map<Address, int>

  function BalanceOf(b: Balances, a: Address): (v: int) {
    if a in b then b[a] else 0
  }

  function Credit(b: Balances, a: Address, v: int): (b': Balances) {
    b[a := BalanceOf(b, a) + v]
  }

  /** The sum of all balances. */
  ghost function Total(b: Balances): (t: int) {
    if b == map[] then 0
    else
      var a :| a in b;
      b[a] + Total(b - {a})
  }

  lemma {:induction false} TotalSplit(b: Balances, a: Address)
    requires a in b
    ensures Total(b) == b[a] + Total(b - {a})
    decreases |b|
  {
    var p :| p in b && Total(b) == b[p] + Total(b - {p});
    if p != a {
      TotalSplit(b - {p}, a);
      TotalSplit(b - {a}, p);
      assert b - {p} - {a} == b - {a} - {p};
    }
  }

  /** Crediting one account moves the total by exactly the amount. */
  lemma {:induction false} TotalCredit(b: Balances, a: Address, v: int)
    ensures Total(Credit(b, a, v)) == Total(b) + v
  {
    var b' := Credit(b, a, v);
    TotalSplit(b', a);
    assert b' - {a} == b - {a};
    if a in b {
      TotalSplit(b, a);
    } else {
      assert b - {a} == b;
    }
  }

  lemma {:induction false} CreditTwice(b: Balances, a: Address, v: int, w: int)
    ensures Credit(Credit(b, a, v), a, w) == Credit(b, a, v + w)
  {
  }

  ghost predicate NonNegative(b: Balances) {
    forall a | a in b :: b[a] >= 0
  }

  lemma {:induction false} TotalNonNegative(b: Balances)
    requires NonNegative(b)
    ensures Total(b) >= 0
    decreases |b|
  {
    if a :| a in b {
      TotalSplit(b, a);
      TotalNonNegative(b - {a});
    }
  }

  /** The balances of the accounts in `gone`. */
  ghost function Held(b: Balances, gone: set<Address>): (b': Balances) {
    map a | a in b && a in gone :: b[a]
  }

  /** Deleting accounts takes away exactly what they hold. */
  lemma {:induction false} TotalDelete(b: Balances, gone: set<Address>)
    ensures Total(b - gone) + Total(Held(b, gone)) == Total(b)
    decreases |b|
  {
    if a :| a in b && a in gone {
      TotalSplit(b, a);
      TotalSplit(Held(b, gone), a);
      TotalDelete(b - {a}, gone);
      DeleteFirst(b, gone, a);
    } else {
      assert Held(b, gone) == map[];
      assert b - gone == b;
    }
  }

  lemma {:induction false} DeleteFirst(b: Balances, gone: set<Address>, a: Address)
    requires a in gone
    ensures Held(b - {a}, gone) == Held(b, gone) - {a} && b - {a} - gone == b - gone
  {
  }

  /** Accounts without debt hold nothing together exactly when none holds anything. */
  lemma {:induction false} TotalZeroIff(b: Balances)
    requires NonNegative(b)
    ensures Total(b) == 0 <==> forall a | a in b :: b[a] == 0
    decreases |b|
  {
    if a :| a in b {
      TotalSplit(b, a);
      TotalNonNegative(b - {a});
      TotalZeroIff(b - {a});
      assert forall x | x in b :: x == a || x in b - {a};
    }
  }

  /** Moving value between accounts keeps the total. */
  lemma {:induction false} TotalTransfer(b: Balances, from: Address, to: Address, v: int)
    ensures Total(Credit(Credit(b, from, -v), to, v)) == Total(b)
  {
    TotalCredit(b, from, -v);
    TotalCredit(Credit(b, from, -v), to, v);
  }
}
