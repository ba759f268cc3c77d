/** Values shared by the modules of this project. */
module Common {
  datatype Option<+T> = None | Some(value: T)

  type Byte = x: int | 0 <= x < 256
  type Bytes = seq<Byte>

  /** Some element, always the same one for the same set. */
  ghost function AnyOf<T>(items: set<T>): (x: T)
    requires items != {}
    ensures x in items
  {
    var x :| x in items;
    x
  }

  function Min(a: nat, b: nat): nat { if a < b then a else b }

  ghost predicate Distinct<T>(items: seq<T>) {
    forall i, j :: 0 <= i < j < |items| ==> items[i] != items[j]
  }

  ghost function Elements<T>(items: seq<T>): set<T> {
    set x <- items
  }

  lemma {:induction false} DistinctSize<T>(items: seq<T>)
    requires Distinct(items)
    ensures |Elements(items)| == |items|
    decreases |items|
  {
    if items != [] {
      var n := |items| - 1;
      DistinctSize(items[..n]);
      assert Elements(items) == Elements(items[..n]) + {items[n]};
    }
  }

  lemma SubsetSize<T>(x: set<T>, y: set<T>)
    requires x <= y
    ensures |x| <= |y|
    ensures |x| == |y| ==> x == y
  {
    assert y == x + (y - x);
  }
}
