/** Sizes of finite sets. */
module Sets {

  lemma {:induction false} SubsetSize<T>(a: set<T>, b: set<T>)
    requires a <= b
    ensures |a| <= |b|
  {
    if a != {} {
      var k :| k in a;
      SubsetSize(a - {k}, b - {k});
    }
  }

  lemma SmallerSet<T>(a: set<T>, b: set<T>, k: T)
    requires k in b && k !in a && forall j :: j in a ==> j in b
    ensures |a| < |b|
  {
    assert a <= b - {k};
    SubsetSize(a, b - {k});
  }
}
