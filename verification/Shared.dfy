/** Definitions every component uses. */
module Shared {

  datatype Option<+T> = None | Some(value: T)

  lemma SubsetSize<T>(a: set<T>, b: set<T>)
    requires a <= b
    ensures |a| <= |b|
  {
    assert b == a + (b - a);
  }

  ghost function Elements<T>(items: seq<T>): set<T>
  {
    set item | item in items
  }

  lemma {:induction false} DistinctSize<T>(items: seq<T>)
    requires forall i, j :: 0 <= i < j < |items| ==> items[i] != items[j]
    ensures |Elements(items)| == |items|
  {
    if items == [] {
      assert Elements(items) == {};
    } else {
      var last := |items| - 1;
      DistinctSize(items[..last]);
      assert Elements(items) == Elements(items[..last]) + {items[last]};
    }
  }
}
