/**
 * The in-process runtime: one object whose methods update its fields, each public method one atomic step.
 * `Valid()` says the object is always in a state reachable from boot by its recorded steps, so everything proved
 * about runs holds of it.
 */
module ClusterRuntime {
  import opened Prelude
  import opened Sorting
  import opened ClusterDomain
  import opened ClusterSpec
  import opened ClusterInvariants
  import opened ClusterCommit

  method MakeEvenAssignments(shardCount: nat, slotCount: nat) returns (assignments: seq<ShardAssignment>)
    requires 0 < shardCount <= slotCount
    ensures assignments == EvenAssignments(shardCount, slotCount)
  {
    var per := slotCount / shardCount;
    assignments := [];
    for i := 0 to shardCount
      invariant assignments == EvenAssignments(shardCount, slotCount)[..i]
    {
      PerPositive(shardCount, slotCount);
      Scale(i, per);
      var start := i * per;
      var end := if i + 1 == shardCount then slotCount - 1 else (i + 1) * per - 1;
      assignments := assignments + [ShardAssignment(i, SlotRange(start, end), ReplicaSet(i, None, [], [], None, []))];
    }
  }

  method ApplyInitialSlotBias(original: seq<ShardAssignment>, bias0: nat) returns (assignments: seq<ShardAssignment>)
    ensures assignments == Bias(original, bias0)
  {
    assignments := original;
    var n := |assignments|;
    if bias0 == 0 || n < 2 { return; }
    var last := assignments[n - 1];
    var bias := Min(bias0, Monus(last.slots.end, last.slots.start));
    for i := 0 to n - 1
      invariant |assignments| == n
      invariant forall j :: 0 <= j < i ==> assignments[j] == original[j].(slots := BiasedRange(original, bias, j))
      invariant assignments[i] == original[i].(slots :=
        SlotRange(BiasedRange(original, bias, i).start, original[i].slots.end))
      invariant forall j :: i < j < n ==> assignments[j] == original[j]
    {
      var a, b := assignments[i], assignments[i + 1];
      assignments := assignments[
        i := a.(slots := a.slots.(end := SaturatingAdd32(a.slots.end, bias)))];
      assignments := assignments[
        i + 1 := b.(slots := b.slots.(start := SaturatingAdd32(b.slots.start, bias)))];
    }
  }

  class InMemoryClusterRuntime {
    const config: Config
    var epoch: nat
    var leaderId: Option<NodeId>
    var nodes: map<NodeId, ClusterNode>
    var shardMap: ShardMap
    var log: seq<LogEntry>
    var commitIndex: nat
    var applied: map<NodeId, nat>
    var sessions: map<string, NodeId>
    var isolated: seq<NodeId>
    var failoverEvents: seq<FailoverEvent>
    var rebalanceHistory: seq<RebalancePlan>
    var nowTick: nat
    ghost var steps: seq<Step>

    function Abs(): State
      reads this
    {
      State(config, epoch, leaderId, nodes, shardMap, log, commitIndex, applied, sessions, isolated,
            failoverEvents, rebalanceHistory, nowTick)
    }

    ghost predicate Valid()
      reads this
    {
      Legal(config, steps) && Exec(config, steps) == Abs()
    }

    constructor (config: Config)
      ensures Valid() && this.config == config && steps == []
    {
      var shardCount := Max(config.shardCount, 1);
      var slotCount := Max(config.slotCount, shardCount);
      var assignments := MakeEvenAssignments(shardCount, slotCount);
      assignments := ApplyInitialSlotBias(assignments, config.initialSlotBias);
      this.config := config;
      epoch, leaderId, nodes := 0, None, map[];
      shardMap := ShardMap(0, slotCount, assignments);
      log, commitIndex, applied, sessions := [], 0, map[], map[];
      isolated, failoverEvents, rebalanceHistory, nowTick := [], [], [], 0;
      steps := [];
    }

    // ---------- Internal updates ----------

    /** Some iteration order of the node table. */
    method IterationOrder() returns (order: seq<NodeId>)
      ensures IsOrder(order, nodes.Keys)
    {
      order := [];
      var rest := nodes.Keys;
      while rest != {}
        invariant rest <= nodes.Keys && NoDup(order)
        invariant forall id :: id in order <==> id in nodes.Keys && id !in rest
        decreases rest
      {
        var id :| id in rest;
        order := order + [id];
        rest := rest - {id};
      }
    }

    method Select(who: Who, order: seq<NodeId>) returns (ids: seq<NodeId>)
      ensures ids == Filter(order, Among(Abs(), who))
    {
      ids := [];
      for i := 0 to |order|
        invariant ids == Filter(order[..i], Among(Abs(), who))
      {
        FilterStep(order, Among(Abs(), who), i);
        if Is(Abs(), who, order[i]) { ids := ids + [order[i]]; }
      }
      assert order[..|order|] == order;
    }

    method DoRefreshRoles(order: seq<NodeId>)
      requires IsOrder(order, nodes.Keys)
      modifies this`nodes
      ensures Abs() == RefreshRoles(old(Abs()))
    {
      var before := nodes;
      for i := 0 to |order|
        invariant nodes.Keys == before.Keys
        invariant forall j :: 0 <= j < i ==> nodes[order[j]] == WithRole(leaderId, before[order[j]])
        invariant forall j :: i <= j < |order| ==> nodes[order[j]] == before[order[j]]
      {
        var n := nodes[order[i]];
        if Some(n.nodeId) == leaderId {
          nodes := nodes[order[i] := n.(role := NodeRole.Leader)];
        } else if !n.role.Learner? {
          nodes := nodes[order[i] := n.(role := Follower)];
        }
      }
      assert nodes == RefreshRoles(old(Abs())).nodes;
    }

    method DoUpdateLiveness(now: nat, order: seq<NodeId>)
      requires IsOrder(order, nodes.Keys)
      modifies this`nodes, this`nowTick
      ensures Abs() == UpdateLiveness(old(Abs()), now)
    {
      nowTick := now;
      var before := nodes;
      for i := 0 to |order|
        invariant nodes.Keys == before.Keys
        invariant nowTick == now
        invariant forall j :: 0 <= j < i ==> nodes[order[j]] == Aged(config, now, before[order[j]])
        invariant forall j :: i <= j < |order| ==> nodes[order[j]] == before[order[j]]
      {
        var n := nodes[order[i]];
        var age := Monus(now, n.lastHeartbeat);
        if age >= config.deadAfterTicks {
          nodes := nodes[order[i] := n.(status := Dead)];
        } else if age >= config.suspectAfterTicks {
          nodes := nodes[order[i] := n.(status := Suspect)];
        } else {
          nodes := nodes[order[i] := n.(status := Healthy)];
        }
      }
      assert nodes == UpdateLiveness(old(Abs()), now).nodes;
    }

    method ComputeLag(followers: seq<NodeId>) returns (lag: seq<(NodeId, nat)>)
      ensures lag == LagList(Abs(), followers)
    {
      var leaderIdx := |log|;
      lag := [];
      for i := 0 to |followers|
        invariant lag == LagList(Abs(), followers)[..i]
      {
        var f := followers[i];
        var done := if f in applied then applied[f] else 0;
        lag := lag + [(f, Monus(leaderIdx, done))];
      }
    }

    method Without(ids: seq<NodeId>, x: NodeId) returns (r: seq<NodeId>)
      ensures r == Filter(ids, Except(x))
    {
      r := [];
      for i := 0 to |ids|
        invariant r == Filter(ids[..i], Except(x))
      {
        FilterStep(ids, Except(x), i);
        if ids[i] != x { r := r + [ids[i]]; }
      }
      assert ids[..|ids|] == ids;
    }

    method DoRebalanceReplicaSets(order: seq<NodeId>)
      modifies this`shardMap
      ensures Abs() == RebalanceReplicaSets(old(Abs()), order)
    {
      var healthy := Select(HealthyReachable, order);
      if healthy == [] { return; }
      ghost var s := Abs();
      var assignments := [];
      for i := 0 to |shardMap.assignments|
        invariant Abs() == s
        invariant assignments == PlacedAssignments(s, healthy)[..i]
      {
        var a := shardMap.assignments[i];
        var primary :=
          if leaderId.Some? && leaderId.value in healthy then leaderId.value else healthy[i % |healthy|];
        var followers := Without(healthy, primary);
        var lag := ComputeLag(followers);
        assignments := assignments + [a.(replicaSet :=
          ReplicaSet(a.shardId, Some(primary), followers, [], a.replicaSet.lastSnapshot, lag))];
      }
      shardMap := ShardMap(epoch, shardMap.slotCount, assignments);
    }

    method DoRecomputeCommitIndex(order: seq<NodeId>)
      requires IsOrder(order, nodes.Keys)
      modifies this`commitIndex
      ensures Abs() == RecomputeCommitIndex(old(Abs()))
    {
      var leaderIdx := |log|;
      if leaderIdx == 0 {
        commitIndex := 0;
        return;
      }
      var voters := Select(ReachableVoter, order);
      SelectedIs(Abs(), ReachableVoter, order);
      assert IdSet(voters) == AllWho(Abs(), ReachableVoter);
      if voters == [] { return; }
      assert voters[0] in IdSet(voters);
      var majorityMin := MajorityApplied(voters);
      MajorityIsLargestBacked(voters, applied, leaderIdx);
      commitIndex := Min(majorityMin, leaderIdx);
    }

    method MajorityApplied(voters: seq<NodeId>) returns (majorityMin: int)
      requires voters != []
      ensures majorityMin == MajorityIndex(AscendingIndexes(voters, applied))
    {
      var indexes: seq<int> := [];
      for i := 0 to |voters|
        invariant indexes == Indexes(voters, applied)[..i]
      {
        indexes := indexes + [if voters[i] in applied then applied[voters[i]] else 0];
      }
      assert indexes == Indexes(voters, applied);
      var sorted := Sort<int>(AtMost, indexes);
      var quorum := |sorted| / 2 + 1;
      majorityMin := sorted[|sorted| - quorum];
    }

    method DoRefreshLag()
      modifies this`shardMap
      ensures Abs() == RefreshLag(old(Abs()))
    {
      ghost var s := Abs();
      var assignments := [];
      for i := 0 to |shardMap.assignments|
        invariant Abs() == s
        invariant assignments == RefreshedAssignments(s)[..i]
      {
        var a := shardMap.assignments[i];
        var lag := ComputeLag(a.replicaSet.followerIds);
        assignments := assignments + [a.(replicaSet := a.replicaSet.(replicaLag := lag))];
      }
      shardMap := shardMap.(assignments := assignments);
    }

    method PushEntry(payload: LogPayload) returns (entry: LogEntry)
      modifies this`log
      ensures Abs() == PushLog(old(Abs()), payload) && entry == log[|log| - 1]
    {
      entry := LogEntry(|log| + 1, epoch, payload);
      log := log + [entry];
    }

    method MarkApplied(id: NodeId)
      modifies this`applied
      ensures Abs() == BumpApplied(old(Abs()), id)
    {
      if id in applied { applied := applied[id := |log|]; }
    }

    method Record(ghost step: Step, ghost before: State)
      requires Legal(config, steps) && Exec(config, steps) == before
      requires Enabled(before, step) && Apply(before, step) == Abs()
      modifies this`steps
      ensures Valid() && steps == old(steps) + [step] && Abs() == old(Abs())
    {
      ExecSnoc(config, steps, step);
      steps := steps + [step];
    }

    // ---------- Membership ----------

    method RegisterNode(node: ClusterNode) returns (ghost order: seq<NodeId>)
      requires Valid()
      modifies this
      ensures Valid() && steps == old(steps) + [Register(node, order)]
      ensures Abs() == DoRegister(old(Abs()), node, order)
      ensures nodes == old(nodes)[node.nodeId := node] && leaderId == old(leaderId) && isolated == old(isolated)
    {
      ghost var s := Abs();
      if node.nodeId !in applied { applied := applied[node.nodeId := 0]; }
      nodes := nodes[node.nodeId := node];
      assert Abs() == Registered(s, node);
      var o := IterationOrder();
      DoRebalanceReplicaSets(o);
      DoRecomputeCommitIndex(o);
      order := o;
      Record(Register(node, o), s);
    }

    method Heartbeat(id: NodeId, tick: nat)
      requires Valid()
      modifies this
      ensures Valid() && steps == old(steps) + [Beat(id, tick)]
      ensures Abs() == DoHeartbeat(old(Abs()), id, tick)
      ensures leaderId == old(leaderId) && isolated == old(isolated)
      ensures forall other :: JustJoined(old(nodes), other) ==> JustJoined(nodes, other)
    {
      ghost var s := Abs();
      if id in nodes {
        nodes := nodes[id := nodes[id].(lastHeartbeat := tick)];
        if !nodes[id].status.Dead? { nodes := nodes[id := nodes[id].(status := Healthy)]; }
      }
      nowTick := Max(nowTick, tick);
      assert nodes == DoHeartbeat(s, id, tick).nodes;
      BeatKeepsJoined(s, id, tick);
      Record(Beat(id, tick), s);
    }

    method SetNodeStatus(id: NodeId, status: NodeStatus)
      requires Valid()
      modifies this
      ensures Valid() && steps == old(steps) + [SetStatus(id, status)]
      ensures Abs() == DoSetStatus(old(Abs()), id, status)
    {
      ghost var s := Abs();
      if id in nodes { nodes := nodes[id := nodes[id].(status := status)]; }
      Record(SetStatus(id, status), s);
    }

    // ---------- Elections ----------

    method TakeLeadership(winner: NodeId, order: seq<NodeId>)
      requires IsOrder(order, nodes.Keys)
      modifies this
      ensures Abs() == Elect(old(Abs()), winner, order) && steps == old(steps)
    {
      epoch := NextEpoch(epoch);
      leaderId := Some(winner);
      DoRefreshRoles(order);
      assert nodes.Keys == old(nodes.Keys);
      DoRebalanceReplicaSets(order);
      assert Abs() == Installed(old(Abs()), winner, order);
      var entry := PushEntry(Noop);
      MarkApplied(winner);
      DoRecomputeCommitIndex(order);
    }

    method RunCampaign(candidate: NodeId)
      returns (r: Result<Option<NodeId>, ClusterError>, ghost order: seq<NodeId>)
      requires Valid()
      modifies this
      ensures IsOrder(order, old(nodes.Keys)) && Abs() == DoCampaign(old(Abs()), candidate, order)
      ensures Valid() && steps == old(steps) + [Campaign(candidate, order)]
      ensures r == CampaignResult(old(Abs()), candidate)
    {
      ghost var s := Abs();
      var o := IterationOrder();
      order := o;
      r := TryCampaign(candidate, o);
      Record(Campaign(candidate, o), s);
    }

    method TryCampaign(candidate: NodeId, order: seq<NodeId>) returns (r: Result<Option<NodeId>, ClusterError>)
      requires IsOrder(order, nodes.Keys)
      modifies this
      ensures Abs() == DoCampaign(old(Abs()), candidate, order) && steps == old(steps)
      ensures r == CampaignResult(old(Abs()), candidate)
    {
      if candidate !in nodes { return Err(CandidateNotRegistered); }
      if !nodes[candidate].status.IsVotable() || candidate in isolated { return Ok(None); }
      var voters := Select(ReachableVoter, order);
      SelectedIs(Abs(), ReachableVoter, order);
      if voters == [] { return Ok(None); }
      assert voters[0] in AllWho(Abs(), ReachableVoter);
      var leaderOk := leaderId.Some? && leaderId.value in nodes
                      && nodes[leaderId.value].status.Healthy? && leaderId.value !in isolated;
      if leaderOk && leaderId != Some(candidate) { return Ok(leaderId); }
      var allVoters := Select(Voter, order);
      SelectedIs(Abs(), Voter, order);
      if |voters| >= |allVoters| / 2 + 1 {
        TakeLeadership(candidate, order);
        r := Ok(Some(candidate));
      } else {
        r := Ok(None);
      }
    }

    method StepDownLeader(leader: NodeId)
      requires Valid()
      modifies this
      ensures Valid() && steps == old(steps) + [StepDown(leader)]
      ensures Abs() == DoStepDown(old(Abs()), leader)
    {
      ghost var s := Abs();
      if leaderId == Some(leader) {
        leaderId := None;
        var order := IterationOrder();
        DoRefreshRoles(order);
      }
      Record(StepDown(leader), s);
    }

    // ---------- Replication ----------

    method AppendEntry(payload: LogPayload) returns (r: Result<LogEntry, ClusterError>)
      requires Valid()
      modifies this
      ensures Valid() && steps == old(steps) + [Append(payload)]
      ensures Abs() == DoAppend(old(Abs()), payload)
      ensures r.Ok? <==> CanAppend(old(Abs()))
      ensures r.Ok? ==> r.value == LogEntry(old(|log|) + 1, old(epoch), payload) && r.value in log
      ensures r.Err? ==> r.error == (if old(leaderId).None? then NoLeaderToAppend else LeaderIsolated)
    {
      ghost var s := Abs();
      if leaderId.None? {
        r := Err(NoLeaderToAppend);
      } else if leaderId.value in isolated {
        r := Err(LeaderIsolated);
      } else {
        var entry := PushEntry(payload);
        MarkApplied(leaderId.value);
        DoRefreshLag();
        var order := IterationOrder();
        DoRecomputeCommitIndex(order);
        r := Ok(entry);
      }
      Record(Append(payload), s);
    }

    method ReplicateToFollowers() returns (appliedTotal: nat, ghost followers: seq<NodeId>)
      requires Valid()
      modifies this
      ensures Valid() && steps == old(steps) + [Replicate]
      ensures Abs() == DoReplicate(old(Abs()))
      ensures IsOrder(followers, AllWho(old(Abs()), ReplicationTarget))
      ensures appliedTotal == TotalGap(followers, old(applied), |log|)
    {
      ghost var s := Abs();
      ReachableInv(config, steps);
      var order := IterationOrder();
      SelectedIs(s, ReplicationTarget, order);
      followers := Filter(order, Among(s, ReplicationTarget));
      appliedTotal := CatchUp(order);
      DoRefreshLag();
      DoRecomputeCommitIndex(order);
      Record(Replicate, s);
    }

    method CatchUp(order: seq<NodeId>) returns (appliedTotal: nat)
      requires IsOrder(order, nodes.Keys) && nodes.Keys == applied.Keys
      modifies this`applied
      ensures Abs() == old(Abs()).(applied := Replicated(old(Abs())))
      ensures appliedTotal == TotalGap(Filter(order, Among(old(Abs()), ReplicationTarget)), old(applied), |log|)
    {
      var followerIds := Select(ReplicationTarget, order);
      SelectedIs(Abs(), ReplicationTarget, order);
      TargetsAreKnown(Abs(), followerIds);
      ReplicatedIsRaised(Abs(), followerIds);
      appliedTotal := RaiseTo(followerIds, |log|);
    }

    method RaiseTo(ids: seq<NodeId>, leaderIdx: nat) returns (appliedTotal: nat)
      requires NoDup(ids) && forall j :: 0 <= j < |ids| ==> ids[j] in applied
      modifies this`applied
      ensures applied == Raised(old(applied), ids, leaderIdx)
      ensures appliedTotal == TotalGap(ids, old(applied), leaderIdx)
    {
      ghost var before := applied;
      appliedTotal := 0;
      for i := 0 to |ids|
        invariant applied == Raised(before, ids[..i], leaderIdx)
        invariant appliedTotal == TotalGap(ids[..i], before, leaderIdx)
      {
        var fid := ids[i];
        assert ids[..i + 1][..i] == ids[..i];
        assert fid !in ids[..i];
        var current := if fid in applied then applied[fid] else 0;
        if current < leaderIdx {
          applied := applied[fid := leaderIdx];
          appliedTotal := appliedTotal + (leaderIdx - current);
        }
      }
      assert ids[..|ids|] == ids;
    }

    // ---------- Failover ----------

    method FirstAmong(ids: seq<NodeId>, who: Who) returns (r: Option<NodeId>)
      ensures var all := Filter(ids, Among(Abs(), who)); r == if all == [] then None else Some(all[0])
    {
      for i := 0 to |ids|
        invariant Filter(ids[..i], Among(Abs(), who)) == []
      {
        if Is(Abs(), who, ids[i]) {
          FilterFirst(ids, Among(Abs(), who), i);
          return Some(ids[i]);
        }
        FilterStep(ids, Among(Abs(), who), i);
      }
      assert ids[..|ids|] == ids;
      r := None;
    }

    method FindSuccessor(a: ShardAssignment, order: seq<NodeId>) returns (r: Option<NodeId>)
      ensures r == Successor(Abs(), a, order)
    {
      r := FirstAmong(a.replicaSet.followerIds, HealthyReachable);
      if r.None? { r := FirstAmong(order, HealthyReachable); }
    }

    method IsDown(leader: Option<NodeId>) returns (down: bool)
      ensures down == Down(Abs(), leader)
    {
      down := leader.None? || leader.value !in nodes
              || nodes[leader.value].status.Dead? || leader.value in isolated;
    }

    method CheckAndFailover(now: nat) returns (events: seq<FailoverEvent>, ghost order: seq<NodeId>)
      requires Valid()
      modifies this
      ensures IsOrder(order, old(nodes.Keys)) && Abs() == DoCheckFailover(old(Abs()), now, order)
      ensures Valid() && steps == old(steps) + [CheckFailover(now, order)]
      ensures events == FailoverEvents(old(Abs()), now, order)
    {
      ghost var s := Abs();
      ReachableInv(config, steps);
      var o := IterationOrder();
      order := o;
      events := RunCheck(now, o);
      Record(CheckFailover(now, o), s);
    }

    method RunCheck(now: nat, order: seq<NodeId>) returns (events: seq<FailoverEvent>)
      requires IsOrder(order, nodes.Keys) && Inv(Abs())
      modifies this
      ensures Abs() == DoCheckFailover(old(Abs()), now, order) && steps == old(steps)
      ensures events == FailoverEvents(old(Abs()), now, order)
    {
      LivenessInv(Abs(), now);
      DoUpdateLiveness(now, order);
      events := Check(now, order);
      failoverEvents := failoverEvents + events;
    }

    method Check(now: nat, order: seq<NodeId>) returns (events: seq<FailoverEvent>)
      requires IsOrder(order, nodes.Keys) && Inv(Abs())
      modifies this
      ensures Abs() == AfterCheck(old(Abs()), order) && steps == old(steps)
      ensures events == CheckEvents(old(Abs()), now, order)
    {
      var metaLeaderDead := IsDown(leaderId);
      if metaLeaderDead {
        events := ElectReplacement(now, order);
      } else {
        events := PromoteLostShards(now, order);
      }
    }

    method ElectReplacement(now: nat, order: seq<NodeId>) returns (events: seq<FailoverEvent>)
      requires IsOrder(order, nodes.Keys) && Down(Abs(), leaderId)
      modifies this
      ensures Abs() == AfterCheck(old(Abs()), order) && steps == old(steps)
      ensures events == CheckEvents(old(Abs()), now, order)
    {
      var allVoters := Select(Voter, order);
      var reachable := Select(HealthyReachableVoter, order);
      SelectedIs(Abs(), Voter, order);
      SelectedIs(Abs(), HealthyReachableVoter, order);
      events := [];
      var quorum := |allVoters| / 2 + 1;
      if |reachable| >= quorum {
        var winner := reachable[0];
        var previous := leaderId;
        TakeLeadership(winner, order);
        events := AnnounceElection(now, previous, winner);
      }
    }

    method AnnounceElection(now: nat, previous: Option<NodeId>, winner: NodeId) returns (events: seq<FailoverEvent>)
      ensures events == ElectionEvents(Abs(), now, previous, winner)
    {
      events := [];
      for i := 0 to |shardMap.assignments|
        invariant events == ElectionEvents(Abs(), now, previous, winner)[..i]
      {
        var a := shardMap.assignments[i];
        var newLeader := if a.replicaSet.leaderId.Some? then a.replicaSet.leaderId.value else winner;
        events := events + [FailoverEvent(now, a.shardId, previous, newLeader, MetadataLeaderLost)];
      }
    }

    method PromoteLostShards(now: nat, order: seq<NodeId>) returns (events: seq<FailoverEvent>)
      requires ShardsInPlace(shardMap)
      modifies this`shardMap
      ensures Abs() == WithPromotions(old(Abs()), order)
      ensures events == PromotionEvents(old(Abs()), now, order, |old(shardMap).assignments|)
    {
      var promotions := PlanPromotions(order);
      events := CarryOut(promotions, now, order);
    }

    method PlanPromotions(order: seq<NodeId>) returns (promotions: seq<Promotion>)
      ensures promotions == PromotionsFrom(Abs(), order, 0)
    {
      promotions := [];
      for i := 0 to |shardMap.assignments|
        invariant promotions + PromotionsFrom(Abs(), order, i) == PromotionsFrom(Abs(), order, 0)
      {
        var a := shardMap.assignments[i];
        var down := IsDown(a.replicaSet.leaderId);
        if down {
          var successor := FindSuccessor(a, order);
          if successor.Some? {
            promotions := promotions + [Promotion(a.shardId, a.replicaSet.leaderId, successor.value)];
          }
        }
      }
    }

    method CarryOut(promotions: seq<Promotion>, now: nat, order: seq<NodeId>) returns (events: seq<FailoverEvent>)
      requires ShardsInPlace(shardMap)
      requires promotions == PromotionsFrom(Abs(), order, 0)
      modifies this`shardMap
      ensures Abs() == WithPromotions(old(Abs()), order)
      ensures events == PromotionEvents(old(Abs()), now, order, |old(shardMap).assignments|)
    {
      ghost var s := Abs();
      ghost var b := HalfwayStart(s, now, order);
      events := [];
      for k := 0 to |promotions|
        invariant nodes == s.nodes && Halfway(s, now, order, b, shardMap, promotions[k..], events)
      {
        b := HalfwayStep(s, now, order, b, shardMap, promotions[k..], events);
        assert promotions[k] == promotions[k..][0] && promotions[k + 1..] == promotions[k..][1..];
        var event := PromoteShard(promotions[k], now);
        events := events + [event];
      }
      NoMorePromotions(s, now, order, b);
    }

    method PromoteShard(p: Promotion, now: nat) returns (event: FailoverEvent)
      requires ShardsInPlace(shardMap)
      requires p.shardId < |shardMap.assignments|
      modifies this`shardMap
      ensures ShardsInPlace(shardMap)
      ensures event == FailoverEvent(now, p.shardId, p.previous, p.newLeader, ShardLeaderLost)
      ensures shardMap == old(shardMap).(assignments := PromoteIn(nodes, old(shardMap).assignments, p))
    {
      var pos := FindAssignment(p.shardId);
      PromoteAt(pos.value, p.newLeader);
      event := FailoverEvent(now, p.shardId, p.previous, p.newLeader, ShardLeaderLost);
    }

    method PromoteAt(pos: nat, newLeader: NodeId)
      requires pos < |shardMap.assignments|
      modifies this`shardMap
      ensures shardMap == old(shardMap).(assignments :=
        old(shardMap).assignments[pos := Promoted(nodes, old(shardMap).assignments[pos], newLeader)])
    {
      var a := shardMap.assignments[pos];
      var followers := Retain(a.replicaSet.Members(), newLeader);
      var promoted := a.(replicaSet := a.replicaSet.(leaderId := Some(newLeader), followerIds := followers));
      shardMap := shardMap.(assignments := shardMap.assignments[pos := promoted]);
    }

    method FindAssignment(shardId: nat) returns (pos: Option<nat>)
      requires ShardsInPlace(shardMap)
      ensures pos == if shardId < |shardMap.assignments| then Some(shardId) else None
    {
      for i := 0 to |shardMap.assignments|
        invariant shardId >= i
      {
        if shardMap.assignments[i].shardId == shardId { return Some(i); }
      }
      pos := None;
    }

    method Retain(members: seq<NodeId>, newLeader: NodeId) returns (followers: seq<NodeId>)
      ensures followers == Filter(members, StaysFollower(nodes, newLeader))
    {
      followers := [];
      for i := 0 to |members|
        invariant followers == Filter(members[..i], StaysFollower(nodes, newLeader))
      {
        FilterStep(members, StaysFollower(nodes, newLeader), i);
        var m := members[i];
        if m != newLeader && m in nodes && !nodes[m].status.Dead? { followers := followers + [m]; }
      }
      assert members[..|members|] == members;
    }

    // ---------- Rebalance and partitions ----------

    method RebalanceSlots() returns (plans: seq<RebalancePlan>, ghost order: seq<NodeId>)
      requires Valid()
      modifies this
      ensures Inv(old(Abs())) && IsOrder(order, old(nodes.Keys)) && Abs() == DoRebalance(old(Abs()), order)
      ensures Valid() && steps == old(steps) + [Rebalance(order)]
      ensures plans == RebalancePlans(old(Abs()))
    {
      ghost var s := Abs();
      ReachableInv(config, steps);
      var o := IterationOrder();
      order := o;
      plans := RunRebalance(o);
      Record(Rebalance(o), s);
    }

    method RunRebalance(order: seq<NodeId>) returns (plans: seq<RebalancePlan>)
      requires 0 < |shardMap.assignments| <= shardMap.slotCount && IsOrder(order, nodes.Keys)
      modifies this
      ensures Abs() == DoRebalance(old(Abs()), order) && steps == old(steps)
      ensures plans == RebalancePlans(old(Abs()))
    {
      var assignments := Reassign();
      plans := ComparePlans(shardMap.assignments, assignments);
      epoch := NextEpoch(epoch);
      shardMap := shardMap.(assignments := assignments, epoch := epoch);
      assert Abs() == Respread(old(Abs()));
      DoRebalanceReplicaSets(order);
      ghost var placed := Abs();
      NoteRebalance(order, Metadata("rebalance plans=" + Decimal(|plans|)));
      RebalanceInParts(old(Abs()), order, placed, Abs());
      rebalanceHistory := rebalanceHistory + plans;
    }

    /** The rebalance itself becomes a log entry that the metadata leader has applied. */
    method NoteRebalance(order: seq<NodeId>, note: LogPayload)
      requires IsOrder(order, nodes.Keys)
      modifies this`log, this`applied, this`commitIndex
      ensures Abs() == RecomputeCommitIndex(MarkLeaderApplied(PushLog(old(Abs()), note)))
    {
      var entry := PushEntry(note);
      if leaderId.Some? { MarkApplied(leaderId.value); }
      DoRecomputeCommitIndex(order);
    }

    method Reassign() returns (assignments: seq<ShardAssignment>)
      requires 0 < |shardMap.assignments| <= shardMap.slotCount
      ensures assignments == EvenlyReassigned(Abs())
    {
      var before := shardMap.assignments;
      assignments := MakeEvenAssignments(|before|, shardMap.slotCount);
      for i := 0 to |before|
        invariant |assignments| == |before|
        invariant forall j :: 0 <= j < i ==> assignments[j] == EvenlyReassigned(Abs())[j]
        invariant forall j :: i <= j < |before| ==> assignments[j] == EvenAssignments(|before|, shardMap.slotCount)[j]
      {
        var a := assignments[i];
        assignments := assignments[i := a.(replicaSet := before[i].replicaSet.(shardId := a.shardId))];
      }
    }

    method ComparePlans(before: seq<ShardAssignment>, after: seq<ShardAssignment>) returns (plans: seq<RebalancePlan>)
      requires |before| == |after|
      ensures plans == Plans(before, after, |before|)
    {
      plans := [];
      for i := 0 to |after|
        invariant plans == Plans(before, after, i)
      {
        if before[i].slots != after[i].slots {
          plans := plans + [RebalancePlan(before[i].shardId, after[i].shardId, after[i].slots)];
        }
      }
    }

    method InjectPartition(ids: seq<NodeId>)
      requires Valid()
      modifies this
      ensures Valid() && steps == old(steps) + [Partition(ids)]
      ensures Abs() == DoPartition(old(Abs()), ids)
    {
      ghost var s := Abs();
      isolated := ids;
      var order := IterationOrder();
      DoRecomputeCommitIndex(order);
      Record(Partition(ids), s);
    }

    method HealPartition()
      requires Valid()
      modifies this
      ensures Valid() && steps == old(steps) + [Partition([])]
      ensures Abs() == DoPartition(old(Abs()), [])
    {
      InjectPartition([]);
    }

    /** A tick refreshes liveness in one step and checks for failover in the next. */
    method Tick(now: nat) returns (events: seq<FailoverEvent>, ghost order: seq<NodeId>)
      requires Valid()
      modifies this
      ensures Valid() && steps == old(steps) + [Liveness(now), CheckFailover(now, order)]
      ensures Abs() == DoCheckFailover(UpdateLiveness(old(Abs()), now), now, order)
    {
      ghost var s := Abs();
      var o := IterationOrder();
      DoUpdateLiveness(now, o);
      Record(Liveness(now), s);
      events, order := CheckAndFailover(now);
    }

    // ---------- Routing ----------

    method LookupShard(key: Bytes) returns (shard: Option<ShardAssignment>)
      ensures shard == ShardForKey(shardMap, key)
    {
      var slot := ComputeHashSlot(key, Max(shardMap.slotCount, 1));
      shard := ShardForSlot(shardMap, slot);
    }

    method RouteWriteKey(key: Bytes) returns (r: Result<WriteRoute, ClusterError>)
      ensures r == RouteWrite(Abs(), key)
    {
      var shard := LookupShard(key);
      if shard.None? { return Err(NoShardAssignment); }
      if shard.value.replicaSet.leaderId.None? { return Err(ShardHasNoLeader); }
      var leader := shard.value.replicaSet.leaderId.value;
      if leader !in nodes { return Err(LeaderNodeMissing); }
      if nodes[leader].status.Dead? || leader in isolated { return Err(ShardLeaderUnavailable); }
      r := Ok(WriteRoute(shard.value.shardId, leader));
    }

    method RouteReadKey(key: Bytes, level: ConsistencyLevel, session: Option<string>)
      returns (r: Result<ReadRoute, ClusterError>)
      ensures r == RouteRead(Abs(), key, level, session)
    {
      var shard := LookupShard(key);
      if shard.None? { return Err(NoShardAssignment); }
      if shard.value.replicaSet.leaderId.None? { return Err(ShardHasNoLeader); }
      var rs, id := shard.value.replicaSet, shard.value.shardId;
      var leader := rs.leaderId.value;
      match level
      case Strong => r := Ok(ReadRoute(id, leader, level, true, None));
      case Session =>
        if session.Some? && session.value in sessions {
          var prev := sessions[session.value];
          var stillOk := prev in nodes && nodes[prev].status.Healthy?
                         && (prev == leader || prev in rs.followerIds || rs.leaderId == Some(prev));
          if stillOk { return Ok(ReadRoute(id, prev, level, prev == leader, None)); }
        }
        r := Ok(ReadRoute(id, leader, level, true, None));
      case Eventual =>
        var chosen := ChooseFollower(rs);
        if chosen.Some? {
          r := Ok(ReadRoute(id, chosen.value, level, false, Some(config.maxEventualLag)));
        } else {
          r := Ok(ReadRoute(id, leader, level, true, Some(config.maxEventualLag)));
        }
    }

    method ChooseFollower(rs: ReplicaSet) returns (chosen: Option<NodeId>)
      ensures var all := Filter(rs.followerIds, Eligible(Abs(), rs));
        chosen == if all == [] then None else Some(all[0])
    {
      var ids := rs.followerIds;
      for i := 0 to |ids|
        invariant Filter(ids[..i], Eligible(Abs(), rs)) == []
      {
        var f := ids[i];
        FilterStep(ids, Eligible(Abs(), rs), i);
        if f !in isolated && f in nodes && nodes[f].status.Healthy? {
          var recorded := rs.LagOf(f);
          var lag := if recorded.Some? then recorded.value else U64_MAX;
          if lag <= config.maxEventualLag {
            FilterFirst(ids, Eligible(Abs(), rs), i);
            return Some(f);
          }
        }
      }
      assert ids[..|ids|] == ids;
      chosen := None;
    }

    method RouteReadForSession(key: Bytes, session: string, level: ConsistencyLevel)
      returns (r: Result<ReadRoute, ClusterError>)
      requires Valid()
      modifies this
      ensures Valid() && steps == old(steps) + [ReadSession(key, session, level)]
      ensures r == RouteRead(old(Abs()), key, level, Some(session))
      ensures Abs() == DoReadSession(old(Abs()), key, session, level)
    {
      ghost var s := Abs();
      r := RouteReadKey(key, level, Some(session));
      if r.Ok? { sessions := sessions[session := r.value.targetNode]; }
      Record(ReadSession(key, session, level), s);
    }

    // ---------- Bootstrap ----------

    /**
     * Register every node, heartbeat every node, campaign for the first. The campaign decides: whoever then leads is
     * returned, be it an earlier leader. It cannot fail on a leaderless, unpartitioned cluster.
     */
    method Bootstrap(peers: seq<(NodeId, string)>)
      returns (r: Result<NodeId, ClusterError>, ghost joins: seq<Step>, ghost order: seq<NodeId>)
      requires Valid()
      modifies this
      ensures Valid() && |joins| == |peers| && JoinsOf(joins, peers)
      ensures peers == [] ==> r == Err(BootstrapRequiresNodes) && steps == old(steps)
      ensures peers != [] ==>
        var before := old(steps) + joins + Beats(peers, |peers|);
        && steps == before + [Campaign(peers[0].0, order)] && Legal(config, before)
        && r == Bootstrapped(CampaignResult(Exec(config, before), peers[0].0))
      ensures peers != [] && old(leaderId).None? && old(isolated) == [] ==>
        r == Ok(peers[0].0) && leaderId == Some(peers[0].0)
    {
      if peers == [] { return Err(BootstrapRequiresNodes), [], []; }
      joins := Prepare(peers);
      r, order := ElectFirst(peers[0].0);
    }

    method Prepare(peers: seq<(NodeId, string)>) returns (ghost joins: seq<Step>)
      requires Valid() && peers != []
      modifies this
      ensures Valid() && leaderId == old(leaderId) && isolated == old(isolated)
      ensures |joins| == |peers| && JoinsOf(joins, peers) && steps == old(steps) + joins + Beats(peers, |peers|)
      ensures JustJoined(nodes, peers[0].0)
    {
      joins := RegisterPeers(peers);
      HeartbeatPeers(peers);
    }

    method ElectFirst(candidate: NodeId) returns (r: Result<NodeId, ClusterError>, ghost order: seq<NodeId>)
      requires Valid()
      modifies this
      ensures Valid() && steps == old(steps) + [Campaign(candidate, order)]
      ensures r == Bootstrapped(CampaignResult(old(Abs()), candidate))
      ensures old(JustJoined(nodes, candidate)) && old(leaderId).None? && old(isolated) == [] ==>
        r == Ok(candidate) && leaderId == Some(candidate)
    {
      ghost var s := Abs();
      assert JustJoined(s.nodes, candidate) && s.leaderId.None? && s.isolated == [] ==> CampaignWins(s, candidate) by {
        if JustJoined(s.nodes, candidate) && s.leaderId.None? && s.isolated == [] { LoneCampaignWins(s, candidate); }
      }
      var won;
      won, order := RunCampaign(candidate);
      if won.Err? { return Err(won.error), order; }
      if won.value.None? { return Err(BootstrapElectionFailed), order; }
      r := Ok(won.value.value);
    }

    method RegisterPeers(peers: seq<(NodeId, string)>) returns (ghost joins: seq<Step>)
      requires Valid()
      modifies this
      ensures Valid() && leaderId == old(leaderId) && isolated == old(isolated)
      ensures Joined(old(steps), joins, peers, steps, nodes) && |joins| == |peers|
    {
      joins := [];
      for i := 0 to |peers|
        invariant Valid() && leaderId == old(leaderId) && isolated == old(isolated)
        invariant Joined(old(steps), joins, peers, steps, nodes) && |joins| == i
      {
        ghost var s, n := steps, nodes;
        ghost var step := Join(peers[i].0, peers[i].1);
        JoinedStep(old(steps), joins, peers, s, n, step, nodes);
        joins := joins + [step];
      }
    }

    method Join(id: NodeId, address: string) returns (ghost step: Step)
      requires Valid()
      modifies this
      ensures Valid() && leaderId == old(leaderId) && isolated == old(isolated)
      ensures Joins(step, id, address) && steps == old(steps) + [step]
      ensures JustJoined(nodes, id) && forall other :: JustJoined(old(nodes), other) ==> JustJoined(nodes, other)
    {
      ghost var order := RegisterNode(Newcomer(id, address));
      step := Register(Newcomer(id, address), order);
    }

    method HeartbeatPeers(peers: seq<(NodeId, string)>)
      requires Valid()
      modifies this
      ensures Valid() && leaderId == old(leaderId) && isolated == old(isolated)
      ensures steps == old(steps) + Beats(peers, |peers|)
      ensures forall id :: JustJoined(old(nodes), id) ==> JustJoined(nodes, id)
    {
      for i := 0 to |peers|
        invariant Valid() && leaderId == old(leaderId) && isolated == old(isolated)
        invariant steps == old(steps) + Beats(peers, i)
        invariant forall id :: JustJoined(old(nodes), id) ==> JustJoined(nodes, id)
      {
        Heartbeat(peers[i].0, 0);
      }
    }
  }

  /** A node as it is when bootstrapping registers it. */
  function Newcomer(id: NodeId, address: string): ClusterNode {
    ClusterNode(id, address, "default", Follower, Healthy, 0)
  }

  ghost predicate Joins(step: Step, id: NodeId, address: string) {
    step.Register? && step.node == Newcomer(id, address)
  }

  /** Register steps, one for each of the first peers. */
  ghost predicate JoinsOf(joins: seq<Step>, peers: seq<(NodeId, string)>) {
    |joins| <= |peers| && forall i :: 0 <= i < |joins| ==> Joins(joins[i], peers[i].0, peers[i].1)
  }

  /** The first peers have joined the run `before`, by the steps `joins`. */
  ghost predicate Joined(before: seq<Step>, joins: seq<Step>, peers: seq<(NodeId, string)>,
                         steps: seq<Step>, nodes: map<NodeId, ClusterNode>) {
    && JoinsOf(joins, peers) && steps == before + joins
    && forall j :: 0 <= j < |joins| ==> JustJoined(nodes, peers[j].0)
  }

  lemma JoinedStep(before: seq<Step>, joins: seq<Step>, peers: seq<(NodeId, string)>, steps: seq<Step>,
                   nodes: map<NodeId, ClusterNode>, step: Step, nodes': map<NodeId, ClusterNode>)
    requires Joined(before, joins, peers, steps, nodes) && |joins| < |peers|
    requires Joins(step, peers[|joins|].0, peers[|joins|].1) && JustJoined(nodes', peers[|joins|].0)
    requires forall other :: JustJoined(nodes, other) ==> JustJoined(nodes', other)
    ensures Joined(before, joins + [step], peers, steps + [step], nodes')
  {
  }

  /** The steps that heartbeat the first `k` peers at tick 0. */
  function Beats(peers: seq<(NodeId, string)>, k: nat): seq<Step>
    requires k <= |peers|
  {
    if k == 0 then [] else Beats(peers, k - 1) + [Beat(peers[k - 1].0, 0)]
  }

  function Bootstrapped(won: Result<Option<NodeId>, ClusterError>): Result<NodeId, ClusterError> {
    match won
    case Ok(Some(leader)) => Ok(leader)
    case Ok(None) => Err(BootstrapElectionFailed)
    case Err(e) => Err(e)
  }

  /** `applied` with each of `ids` brought up to `index`. */
  function Raised(applied: map<NodeId, nat>, ids: seq<NodeId>, index: nat): map<NodeId, nat> {
    map id | id in applied :: if id in ids then Max(applied[id], index) else applied[id]
  }

  lemma TargetsAreKnown(s: State, ids: seq<NodeId>)
    requires s.nodes.Keys == s.applied.Keys
    requires forall id :: id in ids <==> id in AllWho(s, ReplicationTarget)
    ensures forall j :: 0 <= j < |ids| ==> ids[j] in s.applied
  {
    forall j | 0 <= j < |ids| ensures ids[j] in s.applied {
      assert ids[j] in ids;
    }
  }

  lemma ReplicatedIsRaised(s: State, ids: seq<NodeId>)
    requires s.nodes.Keys == s.applied.Keys
    requires forall id :: id in ids <==> id in AllWho(s, ReplicationTarget)
    ensures Replicated(s) == Raised(s.applied, ids, |s.log|)
  {
    assert AllWho(s, ReplicationTarget) <= s.applied.Keys;
  }

  ghost predicate JustJoined(nodes: map<NodeId, ClusterNode>, id: NodeId) {
    id in nodes && nodes[id].status.Healthy? && nodes[id].role.Follower?
  }

  lemma BeatKeepsJoined(s: State, id: NodeId, tick: nat)
    ensures forall other :: JustJoined(s.nodes, other) ==> JustJoined(DoHeartbeat(s, id, tick).nodes, other)
  {
  }

  lemma LoneCampaignWins(s: State, id: NodeId)
    requires JustJoined(s.nodes, id) && s.leaderId.None? && s.isolated == []
    ensures CampaignWins(s, id)
  {
    assert id in AllWho(s, ReachableVoter);
    assert AllWho(s, ReachableVoter) == AllWho(s, Voter);
    assert |AllWho(s, Voter)| > 0;
  }

  lemma RebalanceInParts(s: State, order: seq<NodeId>, placed: State, noted: State)
    requires 0 < |s.shardMap.assignments| <= s.shardMap.slotCount
    requires placed == RebalanceReplicaSets(Respread(s), order)
    requires noted == RecomputeCommitIndex(MarkLeaderApplied(PushLog(placed, RebalanceNote(s))))
    ensures DoRebalance(s, order) == noted.(rebalanceHistory := noted.rebalanceHistory + RebalancePlans(s))
  {
  }

  // ---------- The promotion list ----------

  datatype Promotion = Promotion(shardId: nat, previous: Option<NodeId>, newLeader: NodeId)

  function PromotionFor(s: State, order: seq<NodeId>, i: nat): Promotion
    requires i < |s.shardMap.assignments| && NeedsPromotion(s, s.shardMap.assignments[i], order)
  {
    var a := s.shardMap.assignments[i];
    Promotion(a.shardId, a.replicaSet.leaderId, Successor(s, a, order).value)
  }

  /** Promotions needed at position `b` and after. */
  function PromotionsFrom(s: State, order: seq<NodeId>, b: nat): seq<Promotion>
    requires b <= |s.shardMap.assignments|
    decreases |s.shardMap.assignments| - b
  {
    if b == |s.shardMap.assignments| then []
    else
      (if NeedsPromotion(s, s.shardMap.assignments[b], order) then [PromotionFor(s, order, b)] else [])
      + PromotionsFrom(s, order, b + 1)
  }

  /** The assignments once the promotions before position `b` are carried out. */
  function PartlyPromoted(s: State, order: seq<NodeId>, b: nat): (r: seq<ShardAssignment>)
    ensures |r| == |s.shardMap.assignments|
    ensures forall i :: 0 <= i < |r| ==>
      r[i] == if i < b then PromotedIfNeeded(s, s.shardMap.assignments[i], order) else s.shardMap.assignments[i]
  {
    var n := |s.shardMap.assignments|;
    seq(n, i requires 0 <= i < n =>
      if i < b then PromotedIfNeeded(s, s.shardMap.assignments[i], order) else s.shardMap.assignments[i])
  }

  /** No shard in `[b, i)` needs a promotion. */
  ghost predicate Skips(s: State, order: seq<NodeId>, b: nat, i: nat) {
    b <= i <= |s.shardMap.assignments|
    && forall j :: b <= j < i ==> !NeedsPromotion(s, s.shardMap.assignments[j], order)
  }

  lemma PromotionsHere(s: State, order: seq<NodeId>, b: nat)
    requires b < |s.shardMap.assignments| && NeedsPromotion(s, s.shardMap.assignments[b], order)
    ensures PromotionsFrom(s, order, b) == [PromotionFor(s, order, b)] + PromotionsFrom(s, order, b + 1)
  {
  }

  lemma NoPromotionHere(s: State, now: nat, order: seq<NodeId>, b: nat)
    requires b < |s.shardMap.assignments| && !NeedsPromotion(s, s.shardMap.assignments[b], order)
    ensures PromotionsFrom(s, order, b) == PromotionsFrom(s, order, b + 1)
    ensures PromotionEvents(s, now, order, b + 1) == PromotionEvents(s, now, order, b)
  {
  }

  lemma SkipsOneMore(s: State, order: seq<NodeId>, b: nat, i: nat)
    requires b < |s.shardMap.assignments| && !NeedsPromotion(s, s.shardMap.assignments[b], order)
    requires Skips(s, order, b + 1, i)
    ensures Skips(s, order, b, i)
  {
  }

  /** What the next promotion is: the first needed at or after position `b`. */
  ghost predicate NextIs(s: State, now: nat, order: seq<NodeId>, b: nat, i: nat) {
    && i < |s.shardMap.assignments| && Skips(s, order, b, i)
    && NeedsPromotion(s, s.shardMap.assignments[i], order)
    && PromotionsFrom(s, order, b) == [PromotionFor(s, order, i)] + PromotionsFrom(s, order, i + 1)
    && PromotionEvents(s, now, order, i) == PromotionEvents(s, now, order, b)
  }

  lemma {:induction false} NextPromotion(s: State, now: nat, order: seq<NodeId>, b: nat) returns (i: nat)
    requires b <= |s.shardMap.assignments| && PromotionsFrom(s, order, b) != []
    ensures NextIs(s, now, order, b, i)
    decreases |s.shardMap.assignments| - b
  {
    assert b < |s.shardMap.assignments|;
    if NeedsPromotion(s, s.shardMap.assignments[b], order) {
      PromotionsHere(s, order, b);
      i := b;
    } else {
      NoPromotionHere(s, now, order, b);
      i := NextPromotion(s, now, order, b + 1);
      SkipsOneMore(s, order, b, i);
    }
  }

  ghost predicate ShardsInPlace(m: ShardMap) {
    forall i :: 0 <= i < |m.assignments| ==> m.assignments[i].shardId == i
  }

  /** One promotion carried out. */
  function PromoteIn(nodes: map<NodeId, ClusterNode>, a: seq<ShardAssignment>, p: Promotion): seq<ShardAssignment>
    requires p.shardId < |a|
  {
    a[p.shardId := Promoted(nodes, a[p.shardId], p.newLeader)]
  }

  /** The promotions before position `b` are carried out and announced; `rest` is what is left to do. */
  ghost predicate Halfway(s: State, now: nat, order: seq<NodeId>, b: nat,
                          m: ShardMap, rest: seq<Promotion>, events: seq<FailoverEvent>) {
    && b <= |s.shardMap.assignments| && ShardsInPlace(m)
    && m == s.shardMap.(assignments := PartlyPromoted(s, order, b))
    && rest == PromotionsFrom(s, order, b)
    && events == PromotionEvents(s, now, order, b)
  }

  lemma HalfwayStart(s: State, now: nat, order: seq<NodeId>) returns (b: nat)
    requires ShardsInPlace(s.shardMap)
    ensures Halfway(s, now, order, b, s.shardMap, PromotionsFrom(s, order, 0), [])
  {
    b := 0;
    assert PartlyPromoted(s, order, 0) == s.shardMap.assignments;
  }

  lemma HalfwayStep(s: State, now: nat, order: seq<NodeId>, b: nat,
                    m: ShardMap, rest: seq<Promotion>, events: seq<FailoverEvent>) returns (b': nat)
    requires ShardsInPlace(s.shardMap) && Halfway(s, now, order, b, m, rest, events) && rest != []
    ensures rest[0].shardId < |m.assignments|
    ensures var p := rest[0];
      Halfway(s, now, order, b', m.(assignments := PromoteIn(s.nodes, m.assignments, p)), rest[1..],
              events + [Announced(now, p)])
  {
    var i := CarriedOutStep(s, now, order, b);
    b' := i + 1;
    var p := PromotionFor(s, order, i);
    HeadAndTail(rest, p, PromotionsFrom(s, order, b'));
    MapAdvances(s, order, b, i, m);
    assert PromotionEvents(s, now, order, b') == events + [Announced(now, p)];
  }

  function Announced(now: nat, p: Promotion): FailoverEvent {
    FailoverEvent(now, p.shardId, p.previous, p.newLeader, ShardLeaderLost)
  }

  lemma HeadAndTail(rest: seq<Promotion>, p: Promotion, later: seq<Promotion>)
    requires rest == [p] + later
    ensures rest[0] == p && rest[1..] == later
  {
  }

  /** The map with one more promotion carried out. */
  lemma MapAdvances(s: State, order: seq<NodeId>, b: nat, i: nat, m: ShardMap)
    requires b <= i < |s.shardMap.assignments| && NeedsPromotion(s, s.shardMap.assignments[i], order)
    requires PromotionFor(s, order, i).shardId == i
    requires ShardsInPlace(m) && m == s.shardMap.(assignments := PartlyPromoted(s, order, b))
    requires PromoteIn(s.nodes, PartlyPromoted(s, order, b), PromotionFor(s, order, i)) == PartlyPromoted(s, order, i + 1)
    ensures var m' := m.(assignments := PromoteIn(s.nodes, m.assignments, PromotionFor(s, order, i)));
      ShardsInPlace(m') && m' == s.shardMap.(assignments := PartlyPromoted(s, order, i + 1))
  {
    var p := PromotionFor(s, order, i);
    PlacedStays(m, i, Promoted(s.nodes, m.assignments[i], p.newLeader));
  }

  lemma PlacedStays(m: ShardMap, i: nat, a: ShardAssignment)
    requires ShardsInPlace(m) && i < |m.assignments| && a.shardId == i
    ensures ShardsInPlace(m.(assignments := m.assignments[i := a]))
  {
  }

  lemma CarriedOutStep(s: State, now: nat, order: seq<NodeId>, b: nat) returns (i: nat)
    requires b <= |s.shardMap.assignments| && PromotionsFrom(s, order, b) != []
    requires ShardsInPlace(s.shardMap)
    ensures b <= i < |s.shardMap.assignments| && NeedsPromotion(s, s.shardMap.assignments[i], order)
    ensures PromotionFor(s, order, i).shardId == i
    ensures PromotionsFrom(s, order, b) == [PromotionFor(s, order, i)] + PromotionsFrom(s, order, i + 1)
    ensures PromoteIn(s.nodes, PartlyPromoted(s, order, b), PromotionFor(s, order, i)) == PartlyPromoted(s, order, i + 1)
    ensures PromotionEvents(s, now, order, i + 1) ==
      PromotionEvents(s, now, order, b) + [Announced(now, PromotionFor(s, order, i))]
  {
    i := NextPromotion(s, now, order, b);
    PartlyPromotedStep(s, order, b, i);
  }

  lemma PartlyPromotedStep(s: State, order: seq<NodeId>, b: nat, i: nat)
    requires i < |s.shardMap.assignments| && Skips(s, order, b, i)
    ensures PartlyPromoted(s, order, i + 1)
      == PartlyPromoted(s, order, b)[i := PromotedIfNeeded(s, s.shardMap.assignments[i], order)]
    ensures PartlyPromoted(s, order, b)[i] == s.shardMap.assignments[i]
  {
  }

  lemma {:induction false} NoMorePromotions(s: State, now: nat, order: seq<NodeId>, b: nat)
    requires b <= |s.shardMap.assignments| && PromotionsFrom(s, order, b) == []
    ensures PartlyPromoted(s, order, b) == PromotedAssignments(s, order)
    ensures PromotionEvents(s, now, order, |s.shardMap.assignments|) == PromotionEvents(s, now, order, b)
    decreases |s.shardMap.assignments| - b
  {
    if b < |s.shardMap.assignments| {
      assert Skips(s, order, b, b);
      PartlyPromotedStep(s, order, b, b);
      assert PartlyPromoted(s, order, b + 1) == PartlyPromoted(s, order, b);
      NoMorePromotions(s, now, order, b + 1);
    }
  }
}
