/** What every step of the control plane keeps. */
module ClusterInvariants {
  import opened Prelude
  import opened ClusterDomain
  import opened ClusterSpec

  ghost predicate NodesOk(s: State) {
    && s.nodes.Keys == s.applied.Keys
    && (forall id :: id in s.nodes ==> s.nodes[id].nodeId == id)
    && (s.leaderId.Some? ==> s.leaderId.value in s.nodes)
  }

  /** Entry `i` has index `i + 1`; terms never fall and never pass the epoch; nobody applied or committed past the end. */
  ghost predicate LogOk(s: State) {
    && (forall i :: 0 <= i < |s.log| ==> s.log[i].index == i + 1 && s.log[i].term <= s.epoch)
    && (forall i, j :: 0 <= i < j < |s.log| ==> s.log[i].term <= s.log[j].term)
    && (forall id :: id in s.applied ==> s.applied[id] <= |s.log|)
    && s.commitIndex <= |s.log|
    && s.epoch <= U64_MAX
  }

  /** Ranges are non-empty, contiguous, start at 0 and end at the last slot; shard `i` sits at position `i`. */
  ghost predicate Partitioned(m: ShardMap) {
    var a := m.assignments;
    && 0 < |a| <= m.slotCount
    && a[0].slots.start == 0 && a[|a| - 1].slots.end == m.slotCount - 1
    && (forall i :: 0 <= i < |a| ==> a[i].shardId == i && a[i].slots.start <= a[i].slots.end)
    && (forall i :: 0 <= i < |a| - 1 ==> a[i + 1].slots.start == a[i].slots.end + 1)
  }

  ghost predicate ReplicaOk(rs: ReplicaSet, known: set<NodeId>) {
    && NoDup(rs.followerIds)
    && (forall f :: f in rs.followerIds ==> f in known)
    && (rs.leaderId.Some? ==> rs.leaderId.value in known && rs.leaderId.value !in rs.followerIds)
  }

  ghost predicate ReplicasOk(s: State) {
    forall i :: 0 <= i < |s.shardMap.assignments| ==> ReplicaOk(s.shardMap.assignments[i].replicaSet, s.nodes.Keys)
  }

  ghost predicate Inv(s: State) {
    NodesOk(s) && LogOk(s) && Partitioned(s.shardMap) && ReplicasOk(s)
  }

  // ---------- Selections ----------

  lemma SelectedIs(s: State, who: Who, order: seq<NodeId>)
    requires IsOrder(order, s.nodes.Keys)
    ensures NoDup(Filter(order, Among(s, who)))
    ensures forall id :: id in Filter(order, Among(s, who)) <==> id in AllWho(s, who)
    ensures |Filter(order, Among(s, who))| == |AllWho(s, who)|
  {
    var picked := Filter(order, Among(s, who));
    FilterIn(order, Among(s, who));
    FilterNoDup(order, Among(s, who));
    NoDupCard(picked);
    assert (set x | x in picked) == AllWho(s, who);
  }

  // ---------- Boot ----------

  lemma BootInv(c: Config)
    ensures Inv(Boot(c))
  {
    var n, slots := BootShardCount(c), BootSlotCount(c);
    EvenPartitioned(n, slots);
    BiasPartitioned(EvenAssignments(n, slots), c.initialSlotBias, slots);
  }

  lemma EvenPartitioned(n: nat, slots: nat)
    requires 0 < n <= slots
    ensures Partitioned(ShardMap(0, slots, EvenAssignments(n, slots)))
  {
    var a := EvenAssignments(n, slots);
    var per := slots / n;
    PerPositive(n, slots);
    forall i | 0 <= i < n
      ensures a[i].slots.start <= a[i].slots.end
      ensures i + 1 < n ==> a[i + 1].slots.start == a[i].slots.end + 1
    {
      Scale(i, per);
      EvenStartFits(i, n, slots);
    }
  }

  lemma {:induction false} ProductGrows(a: nat, b: nat, c: nat)
    requires a <= b
    ensures a * c <= b * c
  {
    if a < b {
      ProductGrows(a, b - 1, c);
      assert b * c == (b - 1) * c + c;
    }
  }

  lemma EvenStartFits(i: nat, n: nat, slots: nat)
    requires i < n <= slots
    ensures i * (slots / n) <= slots - 1
  {
    var per := slots / n;
    PerPositive(n, slots);
    Scale(i, per);
    ProductGrows(i + 1, n, per);
  }

  /** Ranges of a partition stay inside the slot space. */
  lemma {:induction false} EndsAscend(m: ShardMap, i: nat, j: nat)
    requires Partitioned(m) && i <= j < |m.assignments|
    ensures m.assignments[i].slots.end <= m.assignments[j].slots.end
    ensures i < j ==> m.assignments[i].slots.end < m.assignments[j].slots.start
    decreases j - i
  {
    if i < j { EndsAscend(m, i, j - 1); }
  }

  lemma BiasPartitioned(a: seq<ShardAssignment>, bias: nat, slots: nat)
    requires Partitioned(ShardMap(0, slots, a)) && slots <= U32_MAX
    ensures Partitioned(ShardMap(0, slots, Bias(a, bias)))
    ensures forall i :: 0 <= i < |a| ==> Bias(a, bias)[i].replicaSet == a[i].replicaSet
  {
    var n := |a|;
    if bias != 0 && n >= 2 {
      var m := ShardMap(0, slots, a);
      var b := Min(bias, Monus(a[n - 1].slots.end, a[n - 1].slots.start));
      var r := Bias(a, bias);
      forall i | 0 <= i < n
        ensures r[i] == a[i].(slots := SlotRange(if i == 0 then 0 else a[i].slots.start + b,
                                                 if i + 1 == n then slots - 1 else a[i].slots.end + b))
      {
        EndsAscend(m, i, n - 1);
        if i + 1 < n { EndsAscend(m, i, n - 2); }
      }
    }
  }

  // ---------- Internal updates ----------

  lemma SameSlots(m: ShardMap, m': ShardMap)
    requires Partitioned(m) && m'.slotCount == m.slotCount && |m'.assignments| == |m.assignments|
    requires forall i :: 0 <= i < |m.assignments| ==>
      m'.assignments[i].slots == m.assignments[i].slots && m'.assignments[i].shardId == m.assignments[i].shardId
    ensures Partitioned(m')
  {
  }

  lemma PlacedReplicaOk(s: State, healthy: seq<NodeId>, i: nat)
    requires healthy != [] && NoDup(healthy) && (forall id :: id in healthy ==> id in s.nodes)
    requires i < |s.shardMap.assignments|
    ensures ReplicaOk(PlacedReplicaSet(s, healthy, i), s.nodes.Keys)
  {
    var primary := Primary(s, healthy, i);
    assert primary in healthy;
    FilterIn(healthy, Except(primary));
    FilterNoDup(healthy, Except(primary));
  }

  lemma PlacedInv(s: State, order: seq<NodeId>)
    requires Inv(s) && IsOrder(order, s.nodes.Keys)
    ensures Inv(RebalanceReplicaSets(s, order))
  {
    var healthy := Filter(order, Among(s, HealthyReachable));
    SelectedIs(s, HealthyReachable, order);
    if healthy != [] {
      var s' := RebalanceReplicaSets(s, order);
      SameSlots(s.shardMap, s'.shardMap);
      forall i | 0 <= i < |s.shardMap.assignments|
        ensures ReplicaOk(s'.shardMap.assignments[i].replicaSet, s.nodes.Keys)
      {
        PlacedReplicaOk(s, healthy, i);
      }
    }
  }

  lemma RolesInv(s: State)
    requires Inv(s)
    ensures Inv(RefreshRoles(s)) && RefreshRoles(s).nodes.Keys == s.nodes.Keys
  {
    assert RefreshRoles(s).nodes.Keys == s.nodes.Keys;
  }

  lemma LivenessInv(s: State, now: nat)
    requires Inv(s)
    ensures Inv(UpdateLiveness(s, now)) && UpdateLiveness(s, now).nodes.Keys == s.nodes.Keys
  {
    assert UpdateLiveness(s, now).nodes.Keys == s.nodes.Keys;
  }

  lemma PushInv(s: State, payload: LogPayload)
    requires Inv(s)
    ensures Inv(PushLog(s, payload))
  {
  }

  lemma BumpInv(s: State, id: NodeId)
    requires Inv(s)
    ensures Inv(BumpApplied(s, id))
  {
    assert BumpApplied(s, id).applied.Keys == s.applied.Keys;
  }

  lemma RecomputeInv(s: State)
    requires Inv(s)
    ensures Inv(RecomputeCommitIndex(s))
  {
  }

  lemma NewEpochInv(s: State, leader: Option<NodeId>)
    requires Inv(s) && (leader.Some? ==> leader.value in s.nodes)
    ensures Inv(s.(epoch := NextEpoch(s.epoch), leaderId := leader))
  {
  }

  lemma SameReplicasInv(s: State, m: ShardMap)
    requires Inv(s) && Partitioned(m)
    requires forall i :: 0 <= i < |m.assignments| ==> ReplicaOk(m.assignments[i].replicaSet, s.nodes.Keys)
    ensures Inv(s.(shardMap := m))
  {
  }

  lemma RefreshLagInv(s: State)
    requires Inv(s)
    ensures Inv(RefreshLag(s))
  {
    var m := RefreshLag(s).shardMap;
    SameSlots(s.shardMap, m);
    forall i | 0 <= i < |m.assignments| ensures ReplicaOk(m.assignments[i].replicaSet, s.nodes.Keys) {
      assert ReplicaOk(s.shardMap.assignments[i].replicaSet, s.nodes.Keys);
    }
    SameReplicasInv(s, m);
  }

  lemma InstalledInv(s: State, winner: NodeId, order: seq<NodeId>)
    requires Inv(s) && winner in s.nodes && IsOrder(order, s.nodes.Keys)
    ensures Inv(Installed(s, winner, order))
  {
    NewEpochInv(s, Some(winner));
    var s1 := s.(epoch := NextEpoch(s.epoch), leaderId := Some(winner));
    RolesInv(s1);
    PlacedInv(RefreshRoles(s1), order);
  }

  /** What installing a leader leaves alone. */
  lemma InstalledFrame(s: State, winner: NodeId, order: seq<NodeId>)
    ensures var t := Installed(s, winner, order);
      && t.epoch == NextEpoch(s.epoch) && t.leaderId == Some(winner)
      && t.log == s.log && t.applied == s.applied && t.commitIndex == s.commitIndex
      && t.isolated == s.isolated && t.nodes.Keys == s.nodes.Keys
    ensures LogOk(s) ==> LogOk(Installed(s, winner, order))
  {
  }

  lemma ElectInv(s: State, winner: NodeId, order: seq<NodeId>)
    requires Inv(s) && winner in s.nodes && IsOrder(order, s.nodes.Keys)
    ensures Inv(Elect(s, winner, order))
  {
    InstalledInv(s, winner, order);
    var t := Installed(s, winner, order);
    PushInv(t, Noop);
    BumpInv(PushLog(t, Noop), winner);
    RecomputeInv(BumpApplied(PushLog(t, Noop), winner));
  }

  lemma EvenlyReassignedInv(s: State, epoch: nat)
    requires Inv(s)
    ensures Inv(s.(shardMap := s.shardMap.(assignments := EvenlyReassigned(s), epoch := epoch)))
  {
    var n := |s.shardMap.assignments|;
    var m := s.shardMap.(assignments := EvenlyReassigned(s), epoch := epoch);
    EvenPartitioned(n, s.shardMap.slotCount);
    SameSlots(ShardMap(0, s.shardMap.slotCount, EvenAssignments(n, s.shardMap.slotCount)), m);
    forall i | 0 <= i < n ensures ReplicaOk(m.assignments[i].replicaSet, s.nodes.Keys) {
      assert ReplicaOk(s.shardMap.assignments[i].replicaSet, s.nodes.Keys);
    }
    SameReplicasInv(s, m);
  }

  // ---------- Steps ----------

  lemma RegisterOk(s: State, node: ClusterNode, order: seq<NodeId>)
    requires Inv(s) && IsOrder(order, s.nodes.Keys + {node.nodeId})
    ensures Inv(DoRegister(s, node, order))
  {
    var s1 := Registered(s, node);
    RegisteredInv(s, node);
    PlacedInv(s1, order);
    RecomputeInv(RebalanceReplicaSets(s1, order));
  }

  lemma RegisteredInv(s: State, node: ClusterNode)
    requires Inv(s)
    ensures Inv(Registered(s, node)) && Registered(s, node).nodes.Keys == s.nodes.Keys + {node.nodeId}
  {
    var s1 := Registered(s, node);
    assert s1.nodes.Keys == s.nodes.Keys + {node.nodeId};
    forall i | 0 <= i < |s.shardMap.assignments|
      ensures ReplicaOk(s.shardMap.assignments[i].replicaSet, s1.nodes.Keys)
    {
      assert ReplicaOk(s.shardMap.assignments[i].replicaSet, s.nodes.Keys);
    }
  }

  lemma MembersNoDup(rs: ReplicaSet, known: set<NodeId>)
    requires ReplicaOk(rs, known)
    ensures NoDup(rs.Members())
  {
  }

  lemma PromotedOk(s: State, a: ShardAssignment, newLeader: NodeId)
    requires ReplicaOk(a.replicaSet, s.nodes.Keys) && newLeader in s.nodes
    ensures ReplicaOk(Promoted(s.nodes, a, newLeader).replicaSet, s.nodes.Keys)
  {
    MembersNoDup(a.replicaSet, s.nodes.Keys);
    FilterIn(a.replicaSet.Members(), StaysFollower(s.nodes, newLeader));
    FilterNoDup(a.replicaSet.Members(), StaysFollower(s.nodes, newLeader));
  }

  lemma SuccessorIsHealthy(s: State, a: ShardAssignment, order: seq<NodeId>)
    ensures var n := Successor(s, a, order); n.Some? ==> Is(s, HealthyReachable, n.value)
    ensures IsOrder(order, s.nodes.Keys) && AllWho(s, HealthyReachable) != {} ==> Successor(s, a, order).Some?
  {
    FilterIn(a.replicaSet.followerIds, Among(s, HealthyReachable));
    FilterIn(order, Among(s, HealthyReachable));
    var followers := Filter(a.replicaSet.followerIds, Among(s, HealthyReachable));
    var others := Filter(order, Among(s, HealthyReachable));
    if followers != [] { assert followers[0] in followers; }
    if others != [] { assert others[0] in others; }
    if IsOrder(order, s.nodes.Keys) && AllWho(s, HealthyReachable) != {} {
      var id :| id in AllWho(s, HealthyReachable);
      assert id in others;
    }
  }

  lemma PromotionsOk(s: State, order: seq<NodeId>)
    requires Inv(s)
    ensures Inv(WithPromotions(s, order))
  {
    var m := s.shardMap.(assignments := PromotedAssignments(s, order));
    SameSlots(s.shardMap, m);
    forall i | 0 <= i < |m.assignments| ensures ReplicaOk(m.assignments[i].replicaSet, s.nodes.Keys) {
      var a := s.shardMap.assignments[i];
      assert ReplicaOk(a.replicaSet, s.nodes.Keys);
      SuccessorIsHealthy(s, a, order);
      if NeedsPromotion(s, a, order) { PromotedOk(s, a, Successor(s, a, order).value); }
    }
    SameReplicasInv(s, m);
  }

  lemma WinnerIsHealthyVoter(s: State, order: seq<NodeId>)
    requires IsOrder(order, s.nodes.Keys)
    ensures FailoverQuorum(s) ==> FailoverWinner(s, order).Some?
    ensures FailoverWinner(s, order).Some? ==> Is(s, HealthyReachableVoter, FailoverWinner(s, order).value)
  {
    SelectedIs(s, HealthyReachableVoter, order);
    var reachable := Filter(order, Among(s, HealthyReachableVoter));
    if reachable != [] { assert reachable[0] in reachable; }
  }

  lemma AfterCheckInv(s: State, order: seq<NodeId>)
    requires Inv(s) && IsOrder(order, s.nodes.Keys)
    ensures Inv(AfterCheck(s, order))
  {
    WinnerIsHealthyVoter(s, order);
    if FailoverElects(s, order) {
      ElectInv(s, FailoverWinner(s, order).value, order);
    } else {
      PromotionsOk(s, order);
    }
  }

  lemma AddEventsInv(s: State, events: seq<FailoverEvent>)
    requires Inv(s)
    ensures Inv(AddEvents(s, events))
  {
  }

  lemma CheckFailoverOk(s: State, now: nat, order: seq<NodeId>)
    requires Inv(s) && IsOrder(order, s.nodes.Keys)
    ensures Inv(DoCheckFailover(s, now, order))
  {
    LivenessInv(s, now);
    var u := UpdateLiveness(s, now);
    AfterCheckInv(u, order);
    AddEventsInv(AfterCheck(u, order), FailoverEvents(s, now, order));
  }

  lemma RespreadInv(s: State)
    requires Inv(s)
    ensures Inv(Respread(s))
  {
    var epoch := NextEpoch(s.epoch);
    NewEpochInv(s, s.leaderId);
    EvenlyReassignedInv(s.(epoch := epoch), epoch);
  }

  lemma MarkLeaderInv(s: State)
    requires Inv(s)
    ensures Inv(MarkLeaderApplied(s))
  {
    if s.leaderId.Some? { BumpInv(s, s.leaderId.value); }
  }

  lemma RebalanceOk(s: State, order: seq<NodeId>)
    requires Inv(s) && IsOrder(order, s.nodes.Keys)
    ensures Inv(DoRebalance(s, order))
  {
    RespreadInv(s);
    var placed := RebalanceReplicaSets(Respread(s), order);
    PlacedInv(Respread(s), order);
    PushInv(placed, RebalanceNote(s));
    MarkLeaderInv(PushLog(placed, RebalanceNote(s)));
    RecomputeInv(MarkLeaderApplied(PushLog(placed, RebalanceNote(s))));
  }

  lemma AppendOk(s: State, payload: LogPayload)
    requires Inv(s)
    ensures Inv(DoAppend(s, payload))
  {
    if CanAppend(s) {
      var s1 := PushLog(s, payload);
      PushInv(s, payload);
      BumpInv(s1, s.leaderId.value);
      RefreshLagInv(BumpApplied(s1, s.leaderId.value));
      RecomputeInv(RefreshLag(BumpApplied(s1, s.leaderId.value)));
    }
  }

  lemma ReplicateOk(s: State)
    requires Inv(s)
    ensures Inv(DoReplicate(s))
  {
    var s1 := s.(applied := Replicated(s));
    ReplicatedInv(s);
    RefreshLagInv(s1);
    RecomputeInv(RefreshLag(s1));
  }

  lemma ReplicatedInv(s: State)
    requires Inv(s)
    ensures Inv(s.(applied := Replicated(s)))
  {
    assert AllWho(s, ReplicationTarget) <= s.nodes.Keys;
    assert Replicated(s).Keys == s.applied.Keys;
  }

  lemma StepKeepsInv(s: State, step: Step)
    requires Inv(s) && Enabled(s, step)
    ensures Inv(Apply(s, step))
  {
    match step
    case Register(node, order) => RegisterOk(s, node, order);
    case Liveness(now) => LivenessInv(s, now);
    case Campaign(candidate, order) => CampaignOk(s, candidate, order);
    case StepDown(leader) => StepDownOk(s, leader);
    case Append(payload) => AppendOk(s, payload);
    case Replicate => ReplicateOk(s);
    case CheckFailover(now, order) => CheckFailoverOk(s, now, order);
    case Rebalance(order) => RebalanceOk(s, order);
    case Beat(id, tick) => BeatOk(s, id, tick);
    case SetStatus(id, status) => SetStatusOk(s, id, status);
    case Partition(isolated) => PartitionOk(s, isolated);
    case ReadSession(key, session, level) => ReadSessionOk(s, key, session, level);
  }

  lemma ReadSessionOk(s: State, key: Bytes, session: string, level: ConsistencyLevel)
    requires Inv(s)
    ensures Inv(DoReadSession(s, key, session, level))
  {
  }

  lemma CampaignOk(s: State, candidate: NodeId, order: seq<NodeId>)
    requires Inv(s) && IsOrder(order, s.nodes.Keys)
    ensures Inv(DoCampaign(s, candidate, order))
  {
    if CampaignWins(s, candidate) { ElectInv(s, candidate, order); }
  }

  lemma StepDownOk(s: State, leader: NodeId)
    requires Inv(s)
    ensures Inv(DoStepDown(s, leader))
  {
    RolesInv(s.(leaderId := None));
  }

  lemma PartitionOk(s: State, isolated: seq<NodeId>)
    requires Inv(s)
    ensures Inv(DoPartition(s, isolated))
  {
    RecomputeInv(s.(isolated := isolated));
  }

  lemma BeatOk(s: State, id: NodeId, tick: nat)
    requires Inv(s)
    ensures Inv(DoHeartbeat(s, id, tick))
  {
    assert DoHeartbeat(s, id, tick).nodes.Keys == s.nodes.Keys;
  }

  lemma SetStatusOk(s: State, id: NodeId, status: NodeStatus)
    requires Inv(s)
    ensures Inv(DoSetStatus(s, id, status))
  {
    assert DoSetStatus(s, id, status).nodes.Keys == s.nodes.Keys;
  }

  /** Every state of every run from boot satisfies the invariant. */
  lemma {:induction false} ReachableInv(c: Config, steps: seq<Step>)
    requires Legal(c, steps)
    ensures Inv(Exec(c, steps))
    decreases |steps|
  {
    if steps == [] {
      BootInv(c);
    } else {
      var n := |steps| - 1;
      ReachableInv(c, steps[..n]);
      StepKeepsInv(Exec(c, steps[..n]), steps[n]);
    }
  }
}
