/** Reordering the system types: which orders are accepted, and what the lists then show. */
module Reorder {
  import opened Text
  import opened Resolve

  /** A system type: its slug and its place in the lists. */
  datatype OsType = OsType(slug: string, order: int)

  type Table = map<nat, OsType>

  function Elements(ids: seq<nat>): set<nat> { set id | id in ids }

  /** `set(got) != all_ids or len(got) != len(all_ids)` refuses an order. */
  predicate IsAccepted(t: Table, ids: seq<nat>) { Elements(ids) == t.Keys && |ids| == |t.Keys| }

  predicate AreDistinct(ids: seq<nat>) { forall i, j :: 0 <= i < j < |ids| ==> ids[i] != ids[j] }

  /** Every type is listed exactly once. */
  ghost predicate IsPermutation(t: Table, ids: seq<nat>) {
    AreDistinct(ids) && forall id :: id in t <==> id in ids
  }

  // ---- Pigeonhole -------------------------------------------------------

  lemma {:induction false} ElementsBound(ids: seq<nat>)
    ensures |Elements(ids)| <= |ids|
    ensures |Elements(ids)| == |ids| <==> AreDistinct(ids)
  {
    if ids == [] {
      assert Elements(ids) == {};
    } else {
      var rest, first := ids[1..], ids[0];
      ElementsBound(rest);
      assert ids == [first] + rest;
      assert Elements(ids) == Elements(rest) + {first};
      assert forall i :: 1 <= i < |ids| ==> ids[i] == rest[i - 1];
      if first in rest {
        assert Elements(ids) == Elements(rest);
        var j :| 0 <= j < |rest| && rest[j] == first;
        assert ids[j + 1] == ids[0];
      } else {
        assert first !in Elements(rest);
        assert AreDistinct(rest) ==> AreDistinct(ids);
        assert AreDistinct(ids) ==> AreDistinct(rest);
      }
    }
  }

  /** An order is accepted exactly when it is a permutation of the existing types. */
  lemma AcceptedMeans(t: Table, ids: seq<nat>)
    ensures IsAccepted(t, ids) <==> IsPermutation(t, ids)
  {
    ElementsBound(ids);
    if IsPermutation(t, ids) { assert Elements(ids) == t.Keys; }
    if IsAccepted(t, ids) {
      forall id ensures id in t <==> id in ids { assert id in Elements(ids) <==> id in ids; }
    }
  }

  // ---- Reordering -------------------------------------------------------

  /** The table with each type at the place it has in the list. */
  ghost predicate IsRanked(t: Table, ids: seq<nat>, after: Table) {
    && after.Keys == t.Keys
    && (forall id :: id in after ==> after[id].slug == t[id].slug)
    && forall i :: 0 <= i < |ids| ==> ids[i] in after && after[ids[i]].order == i
  }

  class OsTypes {
    var table: Table

    method Reorder(ids: seq<nat>) returns (ok: bool)
      modifies this
      ensures ok <==> IsPermutation(old(table), ids)
      ensures if ok then IsRanked(old(table), ids, table) else table == old(table)
    {
      AcceptedMeans(table, ids);
      if !IsAccepted(table, ids) {
        return false;
      }
      var idx := 0;
      while idx < |ids|
        invariant 0 <= idx <= |ids| && table.Keys == old(table).Keys
        invariant forall id :: id in table ==> table[id].slug == old(table)[id].slug
        invariant forall i :: 0 <= i < idx ==> ids[i] in table && table[ids[i]].order == i
      {
        table := table[ids[idx] := table[ids[idx]].(order := idx)];
        idx := idx + 1;
      }
      ok := true;
    }
  }

  // ---- The lists --------------------------------------------------------

  /** `(ui_sort_order, slug)`, compared as the sort does. */
  predicate KeyLess(a: OsType, b: OsType) {
    a.order < b.order || (a.order == b.order && StringLess(Lower(a.slug), Lower(b.slug)))
  }

  /** What sorting the types by that key can give: all of them, none after a smaller one. */
  ghost predicate IsSorted(t: Table, shown: seq<nat>) {
    && IsPermutation(t, shown)
    && forall i, j :: 0 <= i < j < |shown| ==> !KeyLess(t[shown[j]], t[shown[i]])
  }

  lemma DistinctElements(ids: seq<nat>)
    requires AreDistinct(ids)
    ensures |Elements(ids)| == |ids|
  {
    ElementsBound(ids);
  }

  /** Where a type stands in a list. */
  function IndexOf(ids: seq<nat>, id: nat): (n: nat)
    requires id in ids
    ensures n < |ids| && ids[n] == id
  {
    if ids[0] == id then 0 else 1 + IndexOf(ids[1..], id)
  }

  /** Distinct increasing ranks below n, n of them: rank i stands at i. */
  lemma {:induction false} RankAt(ranks: seq<nat>, n: nat, k: nat)
    requires |ranks| == n && k < n && forall i :: 0 <= i < n ==> ranks[i] < n
    requires forall i, j :: 0 <= i < j < n ==> ranks[i] < ranks[j]
    ensures ranks[k] == k
  {
    RankAbove(ranks, k);
    RankBelow(ranks, n, k);
  }

  lemma {:induction false} RankAbove(ranks: seq<nat>, k: nat)
    requires k < |ranks| && forall i, j :: 0 <= i < j < |ranks| ==> ranks[i] < ranks[j]
    ensures ranks[k] >= k
  {
    if k > 0 {
      RankAbove(ranks, k - 1);
      assert ranks[k - 1] < ranks[k];
    }
  }

  lemma {:induction false} RankBelow(ranks: seq<nat>, n: nat, k: nat)
    requires |ranks| == n && k < n && forall i :: 0 <= i < n ==> ranks[i] < n
    requires forall i, j :: 0 <= i < j < n ==> ranks[i] < ranks[j]
    ensures ranks[k] <= k
    decreases n - k
  {
    if k + 1 < n {
      RankBelow(ranks, n, k + 1);
      assert ranks[k] < ranks[k + 1];
    }
  }

  lemma IncreasingRanks(t: Table, ids: seq<nat>, after: Table, shown: seq<nat>, i: nat, j: nat)
    requires IsPermutation(t, ids) && IsRanked(t, ids, after) && IsSorted(after, shown) && i < j < |shown|
    ensures shown[i] in ids && shown[j] in ids
    ensures IndexOf(ids, shown[i]) < IndexOf(ids, shown[j])
  {
    assert shown[i] in after && shown[j] in after;
    var m, n := IndexOf(ids, shown[i]), IndexOf(ids, shown[j]);
    assert after[ids[m]].order == m && after[ids[n]].order == n;
    assert shown[i] != shown[j];
  }

  lemma AllListed(t: Table, ids: seq<nat>, after: Table, shown: seq<nat>)
    requires IsPermutation(t, ids) && IsRanked(t, ids, after) && IsSorted(after, shown)
    ensures |shown| == |ids| && forall i :: 0 <= i < |shown| ==> shown[i] in ids
  {
    DistinctElements(ids);
    DistinctElements(shown);
    SameElements(t, ids, after, shown);
    hide KeyLess;
    forall i | 0 <= i < |shown| ensures shown[i] in ids { assert shown[i] in after; }
  }

  lemma SortedIsOrder(t: Table, ids: seq<nat>, after: Table, shown: seq<nat>)
    requires IsPermutation(t, ids) && IsRanked(t, ids, after) && IsSorted(after, shown)
    ensures shown == ids
  {
    hide IsPermutation, IsRanked, IsSorted;
    AllListed(t, ids, after, shown);
    var ranks := seq(|shown|, i requires 0 <= i < |shown| => IndexOf(ids, shown[i]));
    forall i, j | 0 <= i < j < |ranks| ensures ranks[i] < ranks[j] {
      IncreasingRanks(t, ids, after, shown, i, j);
    }
    forall k | 0 <= k < |ids| ensures shown[k] == ids[k] {
      RankAt(ranks, |ids|, k);
    }
  }

  lemma SameElements(t: Table, ids: seq<nat>, after: Table, shown: seq<nat>)
    requires IsPermutation(t, ids) && IsRanked(t, ids, after) && IsSorted(after, shown)
    ensures Elements(ids) == t.Keys && Elements(shown) == t.Keys
  {
    forall id ensures id in Elements(shown) <==> id in t.Keys {
      assert id in after <==> id in t.Keys;
    }
  }

  /** After an accepted order the sort shows exactly that order, whatever the slugs are. */
  lemma ShownIsOrder(t: Table, ids: seq<nat>, after: Table, shown: seq<nat>)
    requires IsPermutation(t, ids) && IsRanked(t, ids, after)
    ensures IsSorted(after, shown) <==> shown == ids
  {
    if IsSorted(after, shown) { SortedIsOrder(t, ids, after, shown); }
    if shown == ids {
      forall id ensures id in after <==> id in ids { assert id in after <==> id in t.Keys; }
    }
  }
}
