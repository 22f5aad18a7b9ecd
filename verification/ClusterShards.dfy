/** Slot routing and rebalance over every reachable shard map. */
module ClusterShards {
  import opened Prelude
  import opened ClusterDomain
  import opened ClusterSpec
  import opened ClusterInvariants

  lemma {:induction false} FindShardIs(a: seq<ShardAssignment>, slot: nat, i: nat)
    requires i < |a| && a[i].slots.Contains(slot)
    requires forall j :: 0 <= j < |a| && a[j].slots.Contains(slot) ==> j == i
    ensures FindShard(a, slot) == Some(a[i])
  {
    if i > 0 {
      assert !a[0].slots.Contains(slot);
      FindShardIs(a[1..], slot, i - 1);
    }
  }

  /** Some shard with index at most `k` holds `slot` when the slot is not past shard `k`. */
  lemma {:induction false} SomeShardHolds(m: ShardMap, slot: nat, k: nat) returns (i: nat)
    requires Partitioned(m) && k < |m.assignments| && slot <= m.assignments[k].slots.end
    ensures i <= k && m.assignments[i].slots.Contains(slot)
    decreases k
  {
    if m.assignments[k].slots.start <= slot {
      i := k;
    } else {
      i := SomeShardHolds(m, slot, k - 1);
    }
  }

  /** Shard `i`, and no other, holds `slot`. */
  ghost predicate OnlyHolder(m: ShardMap, slot: nat, i: nat) {
    && i < |m.assignments|
    && forall j :: 0 <= j < |m.assignments| ==> (m.assignments[j].slots.Contains(slot) <==> j == i)
  }

  lemma SmallRemainder(a: nat, b: nat)
    requires a < b
    ensures a % b == a
  {
  }

  lemma HoldersAgree(m: ShardMap, slot: nat, i: nat, j: nat)
    requires Partitioned(m) && i < |m.assignments| && j < |m.assignments|
    requires m.assignments[i].slots.Contains(slot) && m.assignments[j].slots.Contains(slot)
    ensures i == j
  {
    if j < i { EndsAscend(m, j, i); } else if i < j { EndsAscend(m, i, j); }
  }

  /** A partition holds every slot in exactly one shard, and the lookup returns that shard. */
  lemma OneShardPerSlot(m: ShardMap, slot: nat) returns (i: nat)
    requires Partitioned(m) && slot < m.slotCount
    ensures OnlyHolder(m, slot, i) && ShardForSlot(m, slot) == Some(m.assignments[i])
  {
    i := SomeShardHolds(m, slot, |m.assignments| - 1);
    forall j | 0 <= j < |m.assignments| && m.assignments[j].slots.Contains(slot) ensures j == i {
      HoldersAgree(m, slot, i, j);
    }
    assert OnlyHolder(m, slot, i);
    SmallRemainder(slot, m.slotCount);
    FindShardIs(m.assignments, slot, i);
  }

  /** In every reachable state every key routes to exactly one shard, the one whose range holds its slot. */
  lemma EveryKeyHasOneShard(c: Config, steps: seq<Step>, key: Bytes)
    requires Legal(c, steps)
    ensures exists i: nat :: RoutesOnlyTo(Exec(c, steps).shardMap, key, i)
  {
    ReachableInv(c, steps);
    var i := PartitionRoutes(Exec(c, steps).shardMap, key);
  }

  /** Shard `i` is the only one that holds the key's slot, and routing finds it. */
  ghost predicate RoutesOnlyTo(m: ShardMap, key: Bytes, i: nat) {
    OnlyHolder(m, HashSlot(key, m.slotCount), i) && ShardForKey(m, key) == Some(m.assignments[i])
  }

  lemma PartitionRoutes(m: ShardMap, key: Bytes) returns (i: nat)
    requires Partitioned(m)
    ensures RoutesOnlyTo(m, key, i)
  {
    assert m.slotCount > 0;
    i := OneShardPerSlot(m, HashSlot(key, m.slotCount));
  }

  // ---------- Rebalance ----------

  function Slots(a: seq<ShardAssignment>): (r: seq<SlotRange>)
    ensures |r| == |a| && forall i :: 0 <= i < |a| ==> r[i] == a[i].slots
  {
    seq(|a|, i requires 0 <= i < |a| => a[i].slots)
  }

  /** Carry out a list of plans, in order, on the current ranges. */
  function MoveRanges(ranges: seq<SlotRange>, plans: seq<RebalancePlan>): (r: seq<SlotRange>)
    ensures |r| == |ranges|
  {
    if plans == [] then ranges
    else
      var plan := plans[|plans| - 1];
      var done := MoveRanges(ranges, plans[..|plans| - 1]);
      if plan.toShard < |ranges| then done[plan.toShard := plan.slots] else done
  }

  /** The first `k` ranges of `after`, the rest of `before`. */
  function Mixed(before: seq<SlotRange>, after: seq<SlotRange>, k: nat): (r: seq<SlotRange>)
    requires k <= |before| == |after|
    ensures |r| == |before|
    ensures forall i :: 0 <= i < |r| ==> r[i] == if i < k then after[i] else before[i]
  {
    after[..k] + before[k..]
  }

  lemma ReplayOne(ranges: seq<SlotRange>, plans: seq<RebalancePlan>, plan: RebalancePlan)
    requires plan.toShard < |ranges|
    ensures MoveRanges(ranges, plans + [plan]) == MoveRanges(ranges, plans)[plan.toShard := plan.slots]
  {
    assert (plans + [plan])[..|plans|] == plans;
  }

  lemma {:induction false} ReplayPlans(before: seq<ShardAssignment>, after: seq<ShardAssignment>, k: nat)
    requires k <= |before| == |after|
    requires forall i :: 0 <= i < |after| ==> after[i].shardId == i
    ensures MoveRanges(Slots(before), Plans(before, after, k)) == Mixed(Slots(before), Slots(after), k)
  {
    if k == 0 {
      assert Mixed(Slots(before), Slots(after), 0) == Slots(before);
    } else {
      ReplayPlans(before, after, k - 1);
      var fewer := Plans(before, after, k - 1);
      if before[k - 1].slots != after[k - 1].slots {
        ReplayOne(Slots(before), fewer, RebalancePlan(before[k - 1].shardId, k - 1, after[k - 1].slots));
      } else {
        assert Plans(before, after, k) == fewer;
      }
    }
  }

  /** Assigning replica sets leaves the ranges alone. */
  lemma PlacingKeepsSlots(s: State, order: seq<NodeId>)
    ensures var m := RebalanceReplicaSets(s, order).shardMap;
      && m.slotCount == s.shardMap.slotCount && |m.assignments| == |s.shardMap.assignments|
      && forall i :: 0 <= i < |m.assignments| ==> m.assignments[i].slots == s.shardMap.assignments[i].slots
  {
  }

  lemma NotingKeepsMap(s: State, note: LogPayload)
    ensures RecomputeCommitIndex(MarkLeaderApplied(PushLog(s, note))).shardMap == s.shardMap
  {
  }

  lemma RebalanceSlots(s: State, order: seq<NodeId>, i: nat)
    requires Inv(s) && i < |s.shardMap.assignments|
    ensures |DoRebalance(s, order).shardMap.assignments| == |s.shardMap.assignments|
    ensures DoRebalance(s, order).shardMap.slotCount == s.shardMap.slotCount
    ensures DoRebalance(s, order).shardMap.assignments[i].slots == EvenlyReassigned(s)[i].slots
  {
    PlacingKeepsSlots(Respread(s), order);
    NotingKeepsMap(RebalanceReplicaSets(Respread(s), order), RebalanceNote(s));
  }

  /** Every range is the even one. */
  ghost predicate Even(m: ShardMap) {
    |m.assignments| <= m.slotCount
    && forall i :: 0 <= i < |m.assignments| ==> m.assignments[i].slots == EvenRange(i, |m.assignments|, m.slotCount)
  }

  lemma RebalanceIsEven(s: State, order: seq<NodeId>)
    requires Inv(s)
    ensures Slots(DoRebalance(s, order).shardMap.assignments) == Slots(EvenlyReassigned(s))
    ensures Even(DoRebalance(s, order).shardMap)
  {
    var m := s.shardMap;
    forall i | 0 <= i < |m.assignments|
      ensures |DoRebalance(s, order).shardMap.assignments| == |m.assignments|
      ensures DoRebalance(s, order).shardMap.slotCount == m.slotCount
      ensures DoRebalance(s, order).shardMap.assignments[i].slots == EvenRange(i, |m.assignments|, m.slotCount)
    {
      RebalanceSlots(s, order, i);
    }
    RebalanceSlots(s, order, 0);
  }

  /** Carrying out the returned plans on the old ranges gives exactly the new ranges, which are the even ones. */
  lemma PlansReplayToNewMap(s: State, order: seq<NodeId>)
    requires Inv(s)
    ensures MoveRanges(Slots(s.shardMap.assignments), RebalancePlans(s)) == Slots(DoRebalance(s, order).shardMap.assignments)
    ensures Even(DoRebalance(s, order).shardMap)
  {
    var n := |s.shardMap.assignments|;
    ReplayPlans(s.shardMap.assignments, EvenlyReassigned(s), n);
    RebalanceIsEven(s, order);
    assert Mixed(Slots(s.shardMap.assignments), Slots(EvenlyReassigned(s)), n) == Slots(EvenlyReassigned(s));
  }

  lemma {:induction false} NoPlans(before: seq<ShardAssignment>, after: seq<ShardAssignment>, k: nat)
    requires k <= |before| == |after|
    ensures Plans(before, after, k) == [] <==> forall i :: 0 <= i < k ==> before[i].slots == after[i].slots
  {
    if k > 0 { NoPlans(before, after, k - 1); }
  }

  /** There is something to move exactly when some range is not the even one. */
  lemma PlansExactlyWhenUneven(s: State)
    requires Inv(s)
    ensures RebalancePlans(s) == [] <==> Even(s.shardMap)
  {
    NoPlans(s.shardMap.assignments, EvenlyReassigned(s), |s.shardMap.assignments|);
  }

  /** A rebalance right after a rebalance has nothing to move. */
  lemma SecondRebalanceIsIdle(s: State, order: seq<NodeId>)
    requires Inv(s) && IsOrder(order, s.nodes.Keys)
    ensures Inv(DoRebalance(s, order)) && RebalancePlans(DoRebalance(s, order)) == []
  {
    RebalanceOk(s, order);
    RebalanceIsEven(s, order);
    PlansExactlyWhenUneven(DoRebalance(s, order));
  }
}
