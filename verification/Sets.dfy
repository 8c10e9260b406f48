/** Ordered iteration over finite sets of integers, and sizes of sets. */
module Sets {

  lemma SomeMember(ids: set<int>)
    ensures ids == {} || exists x :: x in ids
  {
    if forall x :: x !in ids { assert ids == {}; }
  }

  lemma {:induction false} HasSmallest(ids: set<int>)
    requires ids != {}
    ensures exists x :: x in ids && forall y :: y in ids ==> x <= y
  {
    SomeMember(ids);
    var x :| x in ids;
    if ids != {x} {
      assert ids == (ids - {x}) + {x};
      HasSmallest(ids - {x});
      var z :| z in ids - {x} && forall y :: y in ids - {x} ==> z <= y;
      var w := if x < z then x else z;
      assert w in ids && forall y :: y in ids ==> w <= y;
    }
  }

  function Smallest(ids: set<int>): (x: int)
    requires ids != {}
    ensures x in ids && forall y :: y in ids ==> x <= y
  {
    HasSmallest(ids);
    var x :| x in ids && forall y :: y in ids ==> x <= y;
    x
  }

  lemma {:induction false} SubsetSize<T>(a: set<T>, b: set<T>)
    requires a <= b
    ensures |a| <= |b|
  {
    if a != {} {
      var x :| x in a;
      SubsetSize(a - {x}, b - {x});
    }
  }
}
