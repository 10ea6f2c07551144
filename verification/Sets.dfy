/** Counting finite sets. */
module Sets {

  lemma {:induction false} SubsetCount<T>(a: set<T>, b: set<T>)
    requires a <= b
    ensures |a| <= |b|
  {
    if a != {} {
      var x :| x in a;
      SubsetCount(a - {x}, b - {x});
    }
  }

  lemma {:induction false} ProperCount<T>(a: set<T>, b: set<T>, x: T)
    requires a <= b && x in b && x !in a
    ensures |a| < |b|
  {
    SubsetCount(a, b - {x});
  }

  lemma {:induction false} UnionCount<T>(a: set<T>, b: set<T>)
    ensures |a + b| <= |a| + |b|
  {
    if a != {} {
      var x :| x in a;
      UnionCount(a - {x}, b - {x});
      assert (a - {x}) + (b - {x}) == (a + b) - {x};
      SubsetCount(b - {x}, b);
    }
  }
}
