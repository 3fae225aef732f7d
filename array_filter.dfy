/**
 * `Array.prototype.filter` with a total, side-effect-free callback: the
 * elements for which the callback holds, in their original order.
 */
module ArrayFilter {

  function Filter<T(==)>(items: seq<T>, keep: T -> bool): (r: seq<T>)
    ensures |r| <= |items|
    ensures forall j :: 0 <= j < |r| ==> r[j] in items && keep(r[j])
    ensures forall i :: 0 <= i < |items| && keep(items[i]) ==> items[i] in r
  {
    if items == [] then []
    else (if keep(items[0]) then [items[0]] else []) + Filter(items[1..], keep)
  }

  /**
   * The positions from `start` on whose element the callback keeps, in
   * increasing order: each kept position once, and no other.
   */
  function KeptPositions<T>(items: seq<T>, keep: T -> bool, start: nat): (ps: seq<nat>)
    requires start <= |items|
    ensures forall j :: 0 <= j < |ps| ==> start <= ps[j] < |items| && keep(items[ps[j]])
    ensures forall j, l :: 0 <= j < l < |ps| ==> ps[j] < ps[l]
    ensures forall i :: start <= i < |items| && keep(items[i]) ==> i in ps
    decreases |items| - start
  {
    if start == |items| then []
    else (if keep(items[start]) then [start] else []) + KeptPositions(items, keep, start + 1)
  }

  /**
   * The filter's result is the subsequence of `items` at exactly the kept
   * positions: order is preserved, and every kept element appears once per
   * position it occupies in the input.
   */
  lemma FilterSelectsKeptPositions<T>(items: seq<T>, keep: T -> bool)
    ensures |Filter(items, keep)| == |KeptPositions(items, keep, 0)|
    ensures forall j :: 0 <= j < |Filter(items, keep)| ==>
      Filter(items, keep)[j] == items[KeptPositions(items, keep, 0)[j]]
  {
    SuffixSelectsKeptPositions(items, keep, 0);
    assert items[0..] == items;
  }

  lemma {:induction false} SuffixSelectsKeptPositions<T>(items: seq<T>, keep: T -> bool, start: nat)
    requires start <= |items|
    ensures |Filter(items[start..], keep)| == |KeptPositions(items, keep, start)|
    ensures forall j :: 0 <= j < |Filter(items[start..], keep)| ==>
      Filter(items[start..], keep)[j] == items[KeptPositions(items, keep, start)[j]]
    decreases |items| - start
  {
    if start < |items| {
      SuffixSelectsKeptPositions(items, keep, start + 1);
      assert items[start..][1..] == items[start + 1..];
    }
  }

  /** Two callbacks that agree on every element of `items` select the same elements. */
  lemma {:induction false} FilterCongruent<T>(items: seq<T>, keep1: T -> bool, keep2: T -> bool)
    requires forall i :: 0 <= i < |items| ==> keep1(items[i]) == keep2(items[i])
    ensures Filter(items, keep1) == Filter(items, keep2)
  {
    if items != [] {
      assert forall i :: 0 <= i < |items| - 1 ==> items[1..][i] == items[i + 1];
      FilterCongruent(items[1..], keep1, keep2);
    }
  }

  /** A callback that holds of no element yields the empty result. */
  lemma {:induction false} FilterNoneKept<T>(items: seq<T>, keep: T -> bool)
    requires forall i :: 0 <= i < |items| ==> !keep(items[i])
    ensures Filter(items, keep) == []
  {
    if items != [] {
      assert forall i :: 0 <= i < |items| - 1 ==> items[1..][i] == items[i + 1];
      FilterNoneKept(items[1..], keep);
    }
  }
}
