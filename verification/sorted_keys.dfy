/** Python's `sorted()` on the integer keys of a dictionary. */
module SortedKeys {

  /** A set holding `x` has a least element. */
  lemma {:induction false} HasLeastBelow(keys: set<int>, x: int)
    requires x in keys
    ensures exists m :: m in keys && forall y :: y in keys ==> m <= y
    decreases |keys|
  {
    if y :| y in keys && y < x {
      var rest := keys - {x};
      assert y in rest;
      HasLeastBelow(rest, y);
      var m :| m in rest && forall z :: z in rest ==> m <= z;
      forall z | z in keys
        ensures m <= z
      {
        if z != x {
          assert z in rest;
        }
      }
      assert m in keys;
    } else {
      assert forall z :: z in keys ==> x <= z;
    }
  }

  /** Every non-empty set of integers has a least element. */
  lemma HasLeast(keys: set<int>)
    requires |keys| > 0
    ensures exists m :: m in keys && forall y :: y in keys ==> m <= y
  {
    if forall z :: z !in keys {
      assert false;
    }
    var x :| x in keys;
    HasLeastBelow(keys, x);
  }

  /** `sorted(keys)`. */
  function Sorted(keys: set<int>): (r: seq<int>)
    ensures forall i, j :: 0 <= i < j < |r| ==> r[i] < r[j]
    ensures forall x :: x in keys <==> x in r
    decreases |keys|
  {
    if |keys| == 0 then []
    else
      HasLeast(keys);
      var m :| m in keys && forall y :: y in keys ==> m <= y;
      [m] + Sorted(keys - {m})
  }
}
