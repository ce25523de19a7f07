/**
 * The order model shared by columns within a board and tasks within a
 * column: siblings carry integer `order` fields, and every reordering is
 * described here on the sequence of those orders, in array position.
 */
module OrderModel {

  /** No two siblings share an order. */
  predicate Distinct(os: seq<int>) {
    forall i, j :: 0 <= i < j < |os| ==> os[i] != os[j]
  }

  /** Every order lies in [lo, hi). */
  predicate Within(os: seq<int>, lo: int, hi: int) {
    forall i :: 0 <= i < |os| ==> lo <= os[i] < hi
  }

  /**
   * The orders are distinct and lie in [lo, lo + n) for n siblings, so
   * (DenseCovers) they are exactly lo, lo + 1, ..., lo + n - 1. The base
   * `lo` is a parameter because the client never fixes it.
   */
  predicate Dense(os: seq<int>, lo: int) {
    Distinct(os) && Within(os, lo, lo + |os|)
  }

  /** New order of a sibling that is not the dragged one, when the dragged one goes from `drag` to `hover`. */
  function ShiftOrder(o: int, drag: int, hover: int): int {
    if drag - hover > 0 then
      (if o >= hover && o < drag then o + 1 else o)
    else
      (if o <= hover && o > drag then o - 1 else o)
  }

  /** Same-container move: the sibling at position k takes `hover`, the others shift. */
  function Moved(os: seq<int>, k: nat, hover: int): (r: seq<int>)
    requires k < |os|
    ensures |r| == |os| && r[k] == hover
    ensures forall i :: 0 <= i < |os| && i != k && !(hover <= os[i] <= os[k]) && !(os[k] <= os[i] <= hover) ==> r[i] == os[i]
    ensures forall i :: 0 <= i < |os| && i != k && os[k] > hover ==>
      r[i] == (if hover <= os[i] < os[k] then os[i] + 1 else os[i])
    ensures forall i :: 0 <= i < |os| && i != k && os[k] <= hover ==>
      r[i] == (if os[k] < os[i] <= hover then os[i] - 1 else os[i])
  {
    seq(|os|, i requires 0 <= i < |os| => if i == k then hover else ShiftOrder(os[i], os[k], hover))
  }

  /** The orders left behind when the sibling at k leaves: those above its order drop by one. */
  function Closed(os: seq<int>, k: nat): (r: seq<int>)
    requires k < |os|
    ensures |r| == |os| - 1
    ensures forall i :: 0 <= i < k ==> r[i] == (if os[i] > os[k] then os[i] - 1 else os[i])
    ensures forall i :: k <= i < |r| ==> r[i] == (if os[i + 1] > os[k] then os[i + 1] - 1 else os[i + 1])
  {
    var rest := os[..k] + os[k + 1..];
    seq(|rest|, i requires 0 <= i < |rest| => if rest[i] > os[k] then rest[i] - 1 else rest[i])
  }

  /** The orders after a newcomer arrives with order h: those at or above h rise by one, the newcomer is last. */
  function Opened(os: seq<int>, h: int): (r: seq<int>)
    ensures |r| == |os| + 1 && r[|os|] == h
    ensures forall i :: 0 <= i < |os| ==> r[i] == (if os[i] >= h then os[i] + 1 else os[i])
  {
    seq(|os|, i requires 0 <= i < |os| => if os[i] >= h then os[i] + 1 else os[i]) + [h]
  }

  /** A same-container move to an order inside the range keeps the orders dense. */
  lemma MoveKeepsDense(os: seq<int>, k: nat, hover: int, lo: int)
    requires Dense(os, lo) && k < |os| && lo <= hover < lo + |os|
    ensures Dense(Moved(os, k, hover), lo)
  {
    var r := Moved(os, k, hover);
    forall i, j | 0 <= i < j < |r| ensures r[i] != r[j] {
      assert os[i] != os[j];
    }
  }

  /** Leaving a container closes the gap: the remaining orders are dense from the same base. */
  lemma CloseKeepsDense(os: seq<int>, k: nat, lo: int)
    requires Dense(os, lo) && k < |os|
    ensures Dense(Closed(os, k), lo)
  {
    var r := Closed(os, k);
    forall i, j | 0 <= i < j < |r| ensures r[i] != r[j] {
      var i' := if i < k then i else i + 1;
      var j' := if j < k then j else j + 1;
      assert os[i'] != os[j'] && os[i'] != os[k] && os[j'] != os[k];
    }
    forall i | 0 <= i < |r| ensures lo <= r[i] < lo + |r| {
      var i' := if i < k then i else i + 1;
      assert os[i'] != os[k];
    }
  }

  /** Arriving with an order in [lo, lo + n] keeps the orders dense, one value larger. */
  lemma OpenKeepsDense(os: seq<int>, h: int, lo: int)
    requires Dense(os, lo) && lo <= h <= lo + |os|
    ensures Dense(Opened(os, h), lo)
  {
  }

  /**
   * Pigeonhole: n distinct orders inside [lo, lo + n) take every value of
   * that range, so a dense container has no gaps.
   */
  lemma {:induction false} DenseCovers(os: seq<int>, lo: int, v: int)
    requires Dense(os, lo) && lo <= v < lo + |os|
    ensures v in os
    decreases |os|
  {
    var n := |os|;
    var x := os[n - 1];
    if v != x {
      CloseKeepsDense(os, n - 1, lo);
      var r := Closed(os, n - 1);
      var w := if v < x then v else v - 1;
      DenseCovers(r, lo, w);
      var i :| 0 <= i < |r| && r[i] == w;
      assert os[i] != x;
      assert os[i] == v;
    }
  }

  /** Two dense order lists of the same length from the same base hold the same values. */
  lemma DenseSameValues(os: seq<int>, rs: seq<int>, lo: int)
    requires Dense(os, lo) && Dense(rs, lo) && |os| == |rs|
    ensures forall v :: v in os <==> v in rs
  {
    forall v | v in os ensures v in rs {
      DenseCovers(rs, lo, v);
    }
    forall v | v in rs ensures v in os {
      DenseCovers(os, lo, v);
    }
  }

  /** Moving a sibling to the order it already holds changes nothing. */
  lemma MoveToOwnOrder(os: seq<int>, k: nat)
    requires k < |os|
    ensures Moved(os, k, os[k]) == os
  {
  }

  /** Moving a sibling away and then back to its old order restores every order. */
  lemma MoveThenMoveBack(os: seq<int>, k: nat, hover: int)
    requires Distinct(os) && k < |os|
    ensures Moved(Moved(os, k, hover), k, os[k]) == os
  {
    var r := Moved(os, k, hover);
    var back := Moved(r, k, os[k]);
    forall i | 0 <= i < |os| ensures back[i] == os[i] {
      if i != k {
        assert os[i] != os[k] by { if i < k { assert os[i] != os[k]; } else { assert os[k] != os[i]; } }
      }
    }
  }
}
