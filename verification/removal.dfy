/** Removing elements of a list by a set of positions, as `remove(atOffsets:)` does with an
    `IndexSet`. */
module Removal {

  /** How many of `offsets` lie below `n`. */
  function CountBelow(offsets: set<nat>, n: nat): (c: nat)
    ensures c <= n
  {
    if n == 0 then 0 else CountBelow(offsets, n - 1) + (if n - 1 in offsets then 1 else 0)
  }

  /** When every offset is below `n`, `CountBelow` counts all of them. */
  lemma CountBelowCountsAll(offsets: set<nat>, n: nat)
    requires forall o :: o in offsets ==> o < n
    ensures CountBelow(offsets, n) == |offsets|
  {
    CountBelowIsCardinality(offsets, n);
    assert (set o | o in offsets && o < n) == offsets;
  }

  lemma {:induction false} CountBelowIsCardinality(offsets: set<nat>, n: nat)
    ensures CountBelow(offsets, n) == |set o | o in offsets && o < n|
  {
    if n > 0 {
      CountBelowIsCardinality(offsets, n - 1);
      var below := set o | o in offsets && o < n - 1;
      if n - 1 in offsets {
        assert (set o | o in offsets && o < n) == below + {n - 1};
      } else {
        assert (set o | o in offsets && o < n) == below;
      }
    } else {
      assert (set o | o in offsets && o < n) == {};
    }
  }

  /** `xs` without the elements at the positions in `offsets`, the others in their order.
      Offsets past the end name no element. */
  function RemoveAtOffsets<T>(xs: seq<T>, offsets: set<nat>): (r: seq<T>)
    ensures |r| == |xs| - CountBelow(offsets, |xs|)
  {
    if xs == [] then []
    else
      var n := |xs| - 1;
      var kept := RemoveAtOffsets(xs[..n], offsets);
      if n in offsets then kept else kept + [xs[n]]
  }

  /** Every element whose position is not removed survives, moved down by the number of
      removed positions before it; so the survivors keep their order. */
  lemma {:induction false} SurvivorPosition<T>(xs: seq<T>, offsets: set<nat>, i: nat)
    requires i < |xs| && i !in offsets
    ensures CountBelow(offsets, i) <= i
    ensures i - CountBelow(offsets, i) < |RemoveAtOffsets(xs, offsets)|
    ensures RemoveAtOffsets(xs, offsets)[i - CountBelow(offsets, i)] == xs[i]
  {
    var n := |xs| - 1;
    var kept := RemoveAtOffsets(xs[..n], offsets);
    if i < n {
      SurvivorPosition(xs[..n], offsets, i);
    } else {
      assert RemoveAtOffsets(xs, offsets) == kept + [xs[n]];
    }
  }

  /** The elements at the positions in `offsets`, in list order: the ones
      `RemoveAtOffsets` takes out. */
  function AtOffsets<T>(xs: seq<T>, offsets: set<nat>): (r: seq<T>)
    ensures |r| == CountBelow(offsets, |xs|)
    ensures forall i :: 0 <= i < |xs| && i in offsets ==>
      CountBelow(offsets, i) < |r| && r[CountBelow(offsets, i)] == xs[i]
  {
    if xs == [] then []
    else
      var n := |xs| - 1;
      var taken := AtOffsets(xs[..n], offsets);
      if n in offsets then taken + [xs[n]] else taken
  }

  /** Removal loses nothing but the removed elements: what stays and what is taken out
      together are the original list, up to order. */
  lemma {:induction false} RemovalPartitions<T>(xs: seq<T>, offsets: set<nat>)
    ensures multiset(RemoveAtOffsets(xs, offsets)) + multiset(AtOffsets(xs, offsets)) == multiset(xs)
  {
    if xs != [] {
      var n := |xs| - 1;
      RemovalPartitions(xs[..n], offsets);
      var kept, taken := RemoveAtOffsets(xs[..n], offsets), AtOffsets(xs[..n], offsets);
      assert xs == xs[..n] + [xs[n]];
      assert multiset(xs) == multiset(kept) + multiset(taken) + multiset{xs[n]};
      if n in offsets {
        assert AtOffsets(xs, offsets) == taken + [xs[n]];
        assert RemoveAtOffsets(xs, offsets) == kept;
      } else {
        assert AtOffsets(xs, offsets) == taken;
        assert RemoveAtOffsets(xs, offsets) == kept + [xs[n]];
      }
    }
  }

  /** With every offset in range, the list shrinks by exactly the number of offsets. */
  lemma RemovalLength<T>(xs: seq<T>, offsets: set<nat>)
    requires forall o :: o in offsets ==> o < |xs|
    ensures |RemoveAtOffsets(xs, offsets)| == |xs| - |offsets|
    ensures |AtOffsets(xs, offsets)| == |offsets|
  {
    CountBelowCountsAll(offsets, |xs|);
  }
}
