/** What each step does to single nodes and entries, in terms of the nodes' own fields. */
module ClusterFacts {
  import opened Prelude
  import opened ClusterDomain
  import opened ClusterSpec
  import opened ClusterInvariants
  import opened ClusterReads

  // ---------- Who counts ----------

  /** Registered, healthy and not isolated. */
  ghost predicate Up(s: State, id: NodeId) { id in s.nodes && s.nodes[id].status == Healthy && id !in s.isolated }

  /** Registered, not dead and no learner. */
  ghost predicate Votes(s: State, id: NodeId) { id in s.nodes && s.nodes[id].status != Dead && s.nodes[id].role != Learner }

  ghost function AllVoters(s: State): set<NodeId> { set id | id in s.nodes && Votes(s, id) }

  ghost function NearVoters(s: State): set<NodeId> { set id | id in s.nodes && Votes(s, id) && id !in s.isolated }

  lemma WhoCounts(s: State)
    ensures AllWho(s, Voter) == AllVoters(s) && AllWho(s, ReachableVoter) == NearVoters(s)
    ensures forall id :: Is(s, HealthyReachable, id) <==> Up(s, id)
    ensures forall id :: Is(s, HealthyReachableVoter, id) <==> Up(s, id) && s.nodes[id].role != Learner
    ensures forall id :: Is(s, ReplicationTarget, id) <==>
      Up(s, id) && s.nodes[id].role != Learner && s.leaderId != Some(id)
  {
  }

  // ---------- Campaigns ----------

  /** Registered, healthy or suspect, and not isolated. */
  ghost predicate Fit(s: State, id: NodeId) { id in s.nodes && s.nodes[id].status != Dead && id !in s.isolated }

  /** Some node other than `id` leads, is registered and healthy, and is not isolated. */
  ghost predicate OtherLeads(s: State, id: NodeId) {
    s.leaderId.Some? && s.leaderId.value != id && Up(s, s.leaderId.value)
  }

  /** A new leader in the next epoch, which stops at the 64-bit maximum, with one more log entry. */
  ghost predicate Elected(s: State, t: State, id: NodeId) {
    && t.leaderId == Some(id)
    && t.epoch == (if s.epoch < 0xFFFF_FFFF_FFFF_FFFF then s.epoch + 1 else s.epoch)
    && t.log == s.log + [LogEntry(|s.log| + 1, t.epoch, Noop)]
  }

  lemma ElectLog(s: State, winner: NodeId, order: seq<NodeId>)
    requires s.epoch <= 0xFFFF_FFFF_FFFF_FFFF
    ensures Elected(s, Elect(s, winner, order), winner)
  {
    InstalledFrame(s, winner, order);
  }

  lemma MajorityOf(n: nat, m: nat)
    ensures n >= Quorum(m) <==> 2 * n > m
  {
  }

  /**
   * A healthy reachable leader stays: the campaign of any other fit node returns that leader and changes nothing, as
   * long as some voter is reachable.
   */
  lemma LeaderStays(s: State, candidate: NodeId, order: seq<NodeId>, voter: NodeId)
    requires Fit(s, candidate) && OtherLeads(s, candidate) && voter in NearVoters(s)
    ensures CampaignResult(s, candidate) == Ok(s.leaderId) && DoCampaign(s, candidate, order) == s
  {
    WhoCounts(s);
  }

  /**
   * A fit candidate is elected exactly when the reachable voters are a majority of the voters and no other healthy
   * reachable node leads; otherwise nothing changes.
   */
  lemma CampaignElectsIff(s: State, candidate: NodeId, order: seq<NodeId>)
    requires Fit(s, candidate) && s.epoch <= 0xFFFF_FFFF_FFFF_FFFF
    ensures var r, t := CampaignResult(s, candidate), DoCampaign(s, candidate, order);
      && (r == Ok(Some(candidate)) && Elected(s, t, candidate) <==>
           2 * |NearVoters(s)| > |AllVoters(s)| && !OtherLeads(s, candidate))
      && (t == s || Elected(s, t, candidate))
      && (t == s <==> r != Ok(Some(candidate)))
  {
    WhoCounts(s);
    MajorityOf(|NearVoters(s)|, |AllVoters(s)|);
    ElectLog(s, candidate, order);
    assert NearVoters(s) == {} ==> |NearVoters(s)| == 0;
    assert |Elect(s, candidate, order).log| != |s.log|;
  }

  /** Every refusal: who is refused, with what result, and that nothing changes. */
  lemma CampaignRefusals(s: State, candidate: NodeId, order: seq<NodeId>)
    ensures var r, t := CampaignResult(s, candidate), DoCampaign(s, candidate, order);
      && (candidate !in s.nodes ==> r == Err(CandidateNotRegistered) && t == s)
      && (candidate in s.nodes && !Fit(s, candidate) ==> r == Ok(None) && t == s)
      && (candidate in s.nodes && NearVoters(s) == {} ==> r == Ok(None) && t == s)
      && (Fit(s, candidate) && !OtherLeads(s, candidate) && 2 * |NearVoters(s)| <= |AllVoters(s)| ==>
           r == Ok(None) && t == s)
  {
    WhoCounts(s);
    MajorityOf(|NearVoters(s)|, |AllVoters(s)|);
  }

  lemma SeatedRoles(s: State, winner: NodeId, id: NodeId)
    requires NodesOk(s) && winner in s.nodes && id in s.nodes
    ensures var t := Seated(s, winner);
      && id in t.nodes
      && t.nodes[id] == s.nodes[id].(role :=
           if id == winner then NodeRole.Leader else if s.nodes[id].role == Learner then Learner else Follower)
  {
  }

  lemma ElectApplied(s: State, winner: NodeId, order: seq<NodeId>)
    requires NodesOk(s) && winner in s.nodes
    ensures Elect(s, winner, order).applied == s.applied[winner := |s.log| + 1]
    ensures Elect(s, winner, order).sessions == s.sessions
  {
  }

  /** What an election leaves of the nodes: the winner's role is leader, learners stay learners, the rest follow. */
  lemma ElectRoles(s: State, winner: NodeId, order: seq<NodeId>, id: NodeId)
    requires NodesOk(s) && winner in s.nodes && id in s.nodes
    ensures var t := Elect(s, winner, order);
      && t.nodes.Keys == s.nodes.Keys && t.isolated == s.isolated && t.sessions == s.sessions
      && t.nodes[id] == s.nodes[id].(role :=
           if id == winner then NodeRole.Leader else if s.nodes[id].role == Learner then Learner else Follower)
      && t.applied == s.applied[winner := |s.log| + 1]
  {
    SeatedRoles(s, winner, id);
    SeatedFrame(s, winner);
    ElectNodes(s, winner, order);
    ElectApplied(s, winner, order);
  }

  // ---------- Nodes ----------

  /** Stepping down: only the named leader does, and then nobody leads and no node has the leader's role. */
  lemma StepDownFacts(s: State, leader: NodeId)
    requires NodesOk(s)
    ensures var t := DoStepDown(s, leader);
      && (s.leaderId != Some(leader) ==> t == s)
      && (s.leaderId == Some(leader) ==>
           && t.leaderId == None && t.nodes.Keys == s.nodes.Keys
           && t == s.(leaderId := None, nodes := t.nodes)
           && forall id :: id in s.nodes ==>
                t.nodes[id] == s.nodes[id].(role := if s.nodes[id].role == Learner then Learner else Follower))
  {
  }

  /** A registration replaces the node's record, keeps what it had applied, and touches no entry and no leader. */
  lemma RegisterFacts(s: State, node: ClusterNode, order: seq<NodeId>)
    ensures var t := DoRegister(s, node, order);
      && t.nodes == s.nodes[node.nodeId := node]
      && t.applied == (if node.nodeId in s.applied then s.applied else s.applied[node.nodeId := 0])
      && t.log == s.log && t.epoch == s.epoch && t.leaderId == s.leaderId && t.isolated == s.isolated
      && t.sessions == s.sessions && t.nowTick == s.nowTick
  {
  }

  /** A heartbeat of a known node notes its tick and heals it unless it is dead; the clock never goes back. */
  lemma HeartbeatFacts(s: State, id: NodeId, tick: nat)
    ensures var t := DoHeartbeat(s, id, tick);
      && t == s.(nodes := t.nodes, nowTick := if tick > s.nowTick then tick else s.nowTick)
      && t.nodes.Keys == s.nodes.Keys
      && (forall other :: other in s.nodes && other != id ==> t.nodes[other] == s.nodes[other])
      && (id in s.nodes ==>
           && t.nodes[id] == s.nodes[id].(lastHeartbeat := tick, status := t.nodes[id].status)
           && t.nodes[id].status == if s.nodes[id].status == Dead then Dead else Healthy)
  {
  }

  lemma StatusFacts(s: State, id: NodeId, status: NodeStatus)
    ensures var t := DoSetStatus(s, id, status);
      && t == s.(nodes := t.nodes) && t.nodes.Keys == s.nodes.Keys
      && (forall other :: other in s.nodes && other != id ==> t.nodes[other] == s.nodes[other])
      && (id in s.nodes ==> t.nodes[id] == s.nodes[id].(status := status))
  {
  }

  /** A node is dead from `deadAfterTicks` ticks without a heartbeat on, suspect from `suspectAfterTicks` on, else healthy. */
  lemma LivenessFacts(s: State, now: nat, id: NodeId)
    requires id in s.nodes
    ensures var t, silent := UpdateLiveness(s, now), now - s.nodes[id].lastHeartbeat;
      && t == s.(nodes := t.nodes, nowTick := now) && t.nodes.Keys == s.nodes.Keys
      && t.nodes[id] == s.nodes[id].(status := t.nodes[id].status)
      && (t.nodes[id].status == Dead <==> s.config.deadAfterTicks == 0 || silent >= s.config.deadAfterTicks)
      && (t.nodes[id].status == Healthy <==>
           && 0 < s.config.deadAfterTicks && silent < s.config.deadAfterTicks
           && 0 < s.config.suspectAfterTicks && silent < s.config.suspectAfterTicks)
  {
  }

  lemma PartitionFacts(s: State, isolated: seq<NodeId>)
    ensures var t := DoPartition(s, isolated); t == s.(isolated := isolated, commitIndex := t.commitIndex)
  {
  }

  // ---------- The log ----------

  /** An append adds one entry in the leader's epoch, which the leader has applied; without a reachable leader nothing. */
  lemma AppendFacts(s: State, payload: LogPayload)
    requires NodesOk(s)
    ensures var t := DoAppend(s, payload);
      if s.leaderId.Some? && s.leaderId.value !in s.isolated then
        && t.log == s.log + [LogEntry(|s.log| + 1, s.epoch, payload)]
        && t.applied == s.applied[s.leaderId.value := |s.log| + 1]
        && t.nodes == s.nodes && t.leaderId == s.leaderId && t.epoch == s.epoch && t.sessions == s.sessions
      else t == s
  {
  }

  /** Replication brings exactly the healthy reachable voters other than the leader to the end of the log. */
  lemma ReplicateFacts(s: State, id: NodeId)
    requires Inv(s)
    ensures var t := DoReplicate(s);
      && t.log == s.log && t.nodes == s.nodes && t.leaderId == s.leaderId && t.applied.Keys == s.applied.Keys
      && (id in s.nodes ==>
           t.applied[id] ==
             (if Up(s, id) && s.nodes[id].role != Learner && s.leaderId != Some(id) then |s.log| else s.applied[id]))
  {
    WhoCounts(s);
    assert AllWho(s, ReplicationTarget) <= s.nodes.Keys;
  }
}
