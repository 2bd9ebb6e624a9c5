/** The elements of a sequence without repetition. */
module Sets {
  ghost predicate Distinct<T>(q: seq<T>) {
    forall j, k :: 0 <= j < k < |q| ==> q[j] != q[k]
  }

  ghost function AsSet<T(!new)>(q: seq<T>): (c: set<T>)
    ensures forall t :: t in c <==> t in q
  {
    set t | t in q
  }

  lemma {:induction false} SetSize<T(!new)>(q: seq<T>)
    requires Distinct(q)
    ensures |AsSet(q)| == |q|
  {
    if q != [] {
      var init, last := q[..|q| - 1], q[|q| - 1];
      SetSize(init);
      assert last !in init;
      assert AsSet(q) == AsSet(init) + {last};
    }
  }
}
