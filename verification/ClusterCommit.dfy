/** The sort-and-pick computation of the commit index finds the largest majority-backed index. */
module ClusterCommit {
  import opened Prelude
  import opened Sorting
  import opened ClusterDomain
  import opened ClusterSpec

  function IdSet(ids: seq<NodeId>): set<NodeId> { set id | id in ids }

  predicate AtMost(a: int, b: int) { a <= b }

  function Indexes(ids: seq<NodeId>, applied: map<NodeId, nat>): (r: seq<int>)
    ensures |r| == |ids| && forall i :: 0 <= i < |ids| ==> r[i] == AppliedOf(applied, ids[i])
  {
    seq(|ids|, i requires 0 <= i < |ids| => AppliedOf(applied, ids[i]))
  }

  function AscendingIndexes(ids: seq<NodeId>, applied: map<NodeId, nat>): (r: seq<int>)
    ensures |r| == |ids|
  {
    Sort<int>(AtMost, Indexes(ids, applied))
  }

  lemma BackersCons(id: NodeId, rest: seq<NodeId>, applied: map<NodeId, nat>, d: nat)
    requires id !in rest
    ensures |Backers(applied, IdSet([id] + rest), d)|
      == |Backers(applied, IdSet(rest), d)| + (if AppliedOf(applied, id) >= d then 1 else 0)
  {
    var tail := Backers(applied, IdSet(rest), d);
    assert id !in tail;
    assert Backers(applied, IdSet([id] + rest), d) == tail + (if AppliedOf(applied, id) >= d then {id} else {});
  }

  lemma CountCons(id: NodeId, rest: seq<NodeId>, applied: map<NodeId, nat>, c: int)
    ensures Count<int>(AtMost, Indexes([id] + rest, applied), c)
      == Count<int>(AtMost, Indexes(rest, applied), c) + (if AppliedOf(applied, id) <= c then 1 else 0)
  {
    assert Indexes([id] + rest, applied)[1..] == Indexes(rest, applied);
  }

  /** A voter either backs `d` or has applied at most `d - 1`. */
  lemma OneMore(id: NodeId, rest: seq<NodeId>, applied: map<NodeId, nat>, d: nat)
    requires id !in rest && d >= 1
    ensures |Backers(applied, IdSet([id] + rest), d)| + Count<int>(AtMost, Indexes([id] + rest, applied), d - 1)
      == |Backers(applied, IdSet(rest), d)| + Count<int>(AtMost, Indexes(rest, applied), d - 1) + 1
  {
    BackersCons(id, rest, applied, d);
    CountCons(id, rest, applied, d - 1);
  }

  lemma NoDupRest(ids: seq<NodeId>)
    requires NoDup(ids) && ids != []
    ensures NoDup(ids[1..]) && ids[0] !in ids[1..] && ids == [ids[0]] + ids[1..]
  {
  }

  lemma {:induction false} BackersByCount(ids: seq<NodeId>, applied: map<NodeId, nat>, d: nat)
    requires NoDup(ids) && d >= 1
    ensures |Backers(applied, IdSet(ids), d)| + Count<int>(AtMost, Indexes(ids, applied), d - 1) == |ids|
  {
    if ids == [] {
      assert Backers(applied, IdSet(ids), d) == {};
    } else {
      var rest := ids[1..];
      NoDupRest(ids);
      BackersByCount(rest, applied, d);
      OneMore(ids[0], rest, applied, d);
    }
  }

  /** Position `n - quorum` of the ascending sort. */
  function MajorityIndex(sorted: seq<int>): int
    requires sorted != []
  {
    sorted[|sorted| - Quorum(|sorted|)]
  }

  lemma SortedRank(xs: seq<int>, k: nat, c: int)
    requires k < |xs|
    ensures |Sort<int>(AtMost, xs)| == |xs|
    ensures Sort<int>(AtMost, xs)[k] <= c <==> k < Count<int>(AtMost, xs, c)
  {
    CountSort<int>(AtMost, xs, c);
    SortSorts<int>(AtMost, xs);
    RankIff<int>(AtMost, Sort<int>(AtMost, xs), k, c);
  }

  lemma MajorityRank(ids: seq<NodeId>, applied: map<NodeId, nat>, c: int)
    requires ids != []
    ensures var n := |ids|;
      MajorityIndex(AscendingIndexes(ids, applied)) <= c <==> n - Quorum(n) < Count<int>(AtMost, Indexes(ids, applied), c)
  {
    SortedRank(Indexes(ids, applied), |ids| - Quorum(|ids|), c);
  }

  lemma MajorityIndexIsBacked(ids: seq<NodeId>, applied: map<NodeId, nat>, d: nat)
    requires NoDup(ids) && ids != [] && d >= 1
    ensures Backed(applied, IdSet(ids), d) <==> d <= MajorityIndex(AscendingIndexes(ids, applied))
  {
    NoDupCard(ids);
    assert |IdSet(ids)| == |ids|;
    BackersByCount(ids, applied, d);
    MajorityRank(ids, applied, d - 1);
  }

  lemma MajorityIsLargestBacked(ids: seq<NodeId>, applied: map<NodeId, nat>, bound: nat)
    requires NoDup(ids) && ids != []
    ensures Min(MajorityIndex(AscendingIndexes(ids, applied)), bound)
      == LargestBacked(applied, IdSet(ids), bound)
  {
    var sorted := AscendingIndexes(ids, applied);
    assert MajorityIndex(sorted) in multiset(sorted);
    assert MajorityIndex(sorted) in Indexes(ids, applied);
    var m := Min(MajorityIndex(sorted), bound);
    var voters := IdSet(ids);
    var c := LargestBacked(applied, voters, bound);
    if c >= 1 { MajorityIndexIsBacked(ids, applied, c); }
    if m >= 1 { MajorityIndexIsBacked(ids, applied, m); }
  }
}
