/** Election safety, the commit index and failover, over whole runs. */
module ClusterElections {
  import opened Prelude
  import opened ClusterDomain
  import opened ClusterSpec
  import opened ClusterInvariants

  // ---------- Who can become leader ----------

  /** The state in which the votes are counted. */
  ghost function Judged(s: State, step: Step): State {
    if step.CheckFailover? then UpdateLiveness(s, step.now) else s
  }

  lemma ReachableVoterMajority(s: State)
    ensures AllWho(s, HealthyReachableVoter) <= AllWho(s, ReachableVoter) <= AllWho(s, Voter)
    ensures FailoverQuorum(s) ==> 2 * |AllWho(s, ReachableVoter)| > |AllWho(s, Voter)|
  {
    SubsetCard(AllWho(s, HealthyReachableVoter), AllWho(s, ReachableVoter));
  }

  /** How leadership and the epoch may change when `winner` wins an election judged in `j`, or nobody does. */
  ghost predicate FairChange(s: State, s': State, j: State, winner: Option<NodeId>) {
    match winner
    case None => s'.leaderId.Some? ==> s'.leaderId == s.leaderId
    case Some(w) =>
      && s'.leaderId == winner && s'.epoch == NextEpoch(s.epoch)
      && w in j.nodes && j.nodes[w].status.IsVotable() && w !in j.isolated
      && 2 * |AllWho(j, ReachableVoter)| > |AllWho(j, Voter)|
  }

  lemma RebalanceKeepsLeader(s: State, order: seq<NodeId>)
    requires |s.shardMap.assignments| <= s.shardMap.slotCount
    ensures DoRebalance(s, order).leaderId == s.leaderId
  {
    RespreadFrame(s, order);
    NotedFrame(RebalanceReplicaSets(Respread(s), order), RebalanceNote(s));
  }

  lemma NotedFrame(s: State, note: LogPayload)
    ensures var t := RecomputeCommitIndex(MarkLeaderApplied(PushLog(s, note)));
      t.leaderId == s.leaderId && t.sessions == s.sessions
  {
  }

  /** What replacing the ranges and replica sets leaves alone. */
  lemma RespreadFrame(s: State, order: seq<NodeId>)
    requires |s.shardMap.assignments| <= s.shardMap.slotCount
    ensures var t := RebalanceReplicaSets(Respread(s), order);
      && t.epoch == NextEpoch(s.epoch) && t.leaderId == s.leaderId && t.log == s.log && t.applied == s.applied
      && t.commitIndex == s.commitIndex && t.isolated == s.isolated && t.nodes == s.nodes && t.sessions == s.sessions
    ensures LogOk(s) ==> LogOk(RebalanceReplicaSets(Respread(s), order))
  {
  }

  lemma RegisterKeepsLeader(s: State, node: ClusterNode, order: seq<NodeId>)
    ensures DoRegister(s, node, order).leaderId == s.leaderId
  {
  }

  lemma ElectLeads(s: State, winner: NodeId, order: seq<NodeId>)
    ensures Elect(s, winner, order).leaderId == Some(winner) && Elect(s, winner, order).epoch == NextEpoch(s.epoch)
  {
  }

  lemma CheckFair(u: State, order: seq<NodeId>)
    requires IsOrder(order, u.nodes.Keys)
    ensures FairChange(u, AfterCheck(u, order), u, if FailoverElects(u, order) then FailoverWinner(u, order) else None)
  {
    if FailoverElects(u, order) {
      var winner := FailoverWinner(u, order).value;
      WinnerIsHealthyVoter(u, order);
      ReachableVoterMajority(u);
      ElectLeads(u, winner, order);
    }
  }

  lemma FailoverFair(s: State, now: nat, order: seq<NodeId>)
    requires Inv(s) && IsOrder(order, s.nodes.Keys)
    ensures var u := UpdateLiveness(s, now);
      FairChange(s, DoCheckFailover(s, now, order), u, if FailoverElects(u, order) then FailoverWinner(u, order) else None)
  {
    CheckFair(UpdateLiveness(s, now), order);
  }

  lemma CampaignFair(s: State, candidate: NodeId, order: seq<NodeId>)
    ensures FairChange(s, DoCampaign(s, candidate, order), s, if CampaignWins(s, candidate) then Some(candidate) else None)
  {
    if CampaignWins(s, candidate) { ElectLeads(s, candidate, order); }
  }

  /**
   * A step installs a different leader only by an election in which the reachable voters are a majority of
   * all voters and the winner is registered, alive and reachable; the election opens the next epoch.
   */
  lemma NewLeaderNeedsMajority(s: State, step: Step)
    requires Inv(s) && Enabled(s, step)
    ensures FairChange(s, Apply(s, step), Judged(s, step), ElectionWinner(s, step))
  {
    match step
    case CheckFailover(now, order) => FailoverFair(s, now, order);
    case Campaign(candidate, order) => CampaignFair(s, candidate, order);
    case Rebalance(order) => RebalanceKeepsLeader(s, order);
    case Register(node, order) => RegisterKeepsLeader(s, node, order);
    case _ =>
  }

  // ---------- Progress ----------

  /** Epochs and applied indexes never fall; the log grows by at most one entry, stamped with the new epoch. */
  ghost predicate Progress(s: State, s': State) {
    && s.epoch <= s'.epoch
    && (forall id :: id in s.applied ==> id in s'.applied && s.applied[id] <= s'.applied[id])
    && (|| s'.log == s.log
        || (|s'.log| == |s.log| + 1 && s'.log[..|s.log|] == s.log && s'.log[|s.log|].term == s'.epoch))
  }

  lemma PushProgress(s: State, s1: State, payload: LogPayload)
    requires LogOk(s) && s1.log == s.log && s1.applied == s.applied && s1.epoch >= s.epoch
    ensures Progress(s, PushLog(s1, payload))
  {
  }

  lemma BumpProgress(s: State, s1: State, id: NodeId)
    requires LogOk(s) && Progress(s, s1) && s1.applied == s.applied && |s1.log| >= |s.log|
    ensures Progress(s, BumpApplied(s1, id))
  {
  }

  lemma PushAndBumpProgress(s: State, s1: State, payload: LogPayload, id: NodeId)
    requires LogOk(s) && s1.log == s.log && s1.applied == s.applied && s1.epoch >= s.epoch
    ensures Progress(s, RecomputeCommitIndex(BumpApplied(PushLog(s1, payload), id)))
    ensures Progress(s, RecomputeCommitIndex(PushLog(s1, payload)))
    ensures Progress(s, RecomputeCommitIndex(RefreshLag(BumpApplied(PushLog(s1, payload), id))))
  {
    PushProgress(s, s1, payload);
    BumpProgress(s, PushLog(s1, payload), id);
  }

  lemma ElectProgress(s: State, winner: NodeId, order: seq<NodeId>)
    requires LogOk(s)
    ensures Progress(s, Elect(s, winner, order))
  {
    InstalledFrame(s, winner, order);
    PushAndBumpProgress(s, Installed(s, winner, order), Noop, winner);
  }

  lemma RebalanceProgress(s: State, order: seq<NodeId>)
    requires Inv(s)
    ensures Progress(s, DoRebalance(s, order))
  {
    RespreadFrame(s, order);
    PushAndBumpProgress(s, RebalanceReplicaSets(Respread(s), order), RebalanceNote(s),
                        if s.leaderId.Some? then s.leaderId.value else "");
  }

  lemma FailoverProgress(s: State, now: nat, order: seq<NodeId>)
    requires Inv(s)
    ensures Progress(s, DoCheckFailover(s, now, order))
  {
    LivenessInv(s, now);
    var u := UpdateLiveness(s, now);
    if FailoverElects(u, order) { ElectProgress(u, FailoverWinner(u, order).value, order); }
  }

  lemma RegisterProgress(s: State, node: ClusterNode, order: seq<NodeId>)
    ensures Progress(s, DoRegister(s, node, order))
  {
  }

  lemma ReplicateProgress(s: State)
    requires LogOk(s)
    ensures Progress(s, DoReplicate(s))
  {
  }

  /** Every step makes progress. */
  lemma StepProgress(s: State, step: Step)
    requires Inv(s) && Enabled(s, step)
    ensures Progress(s, Apply(s, step))
  {
    match step
    case Register(node, order) => RegisterProgress(s, node, order);
    case Campaign(candidate, order) => if CampaignWins(s, candidate) { ElectProgress(s, candidate, order); }
    case CheckFailover(now, order) => FailoverProgress(s, now, order);
    case Append(payload) => if CanAppend(s) { PushAndBumpProgress(s, s, payload, s.leaderId.value); }
    case Replicate => ReplicateProgress(s);
    case Rebalance(order) => RebalanceProgress(s, order);
    case _ =>
  }

  datatype Election = Election(epoch: nat, leader: NodeId)

  /** Every election won during the run, in order. */
  ghost function Elections(c: Config, steps: seq<Step>): seq<Election>
    requires Legal(c, steps)
    decreases |steps|
  {
    if steps == [] then []
    else
      var n := |steps| - 1;
      var s := Exec(c, steps[..n]);
      var winner := ElectionWinner(s, steps[n]);
      Elections(c, steps[..n]) +
      (if winner.Some? then [Election(Apply(s, steps[n]).epoch, winner.value)] else [])
  }

  /** Epochs of elections rise strictly until the 64-bit counter is exhausted, and never pass the current epoch. */
  lemma {:induction false} ElectionEpochsRise(c: Config, steps: seq<Step>)
    requires Legal(c, steps)
    ensures forall i :: 0 <= i < |Elections(c, steps)| ==> Elections(c, steps)[i].epoch <= Exec(c, steps).epoch
    ensures forall i, j :: 0 <= i < j < |Elections(c, steps)| ==>
      Elections(c, steps)[i].epoch < Elections(c, steps)[j].epoch || Elections(c, steps)[j].epoch == U64_MAX
    decreases |steps|
  {
    if steps != [] {
      var n := |steps| - 1;
      var s := Exec(c, steps[..n]);
      ElectionEpochsRise(c, steps[..n]);
      ReachableInv(c, steps[..n]);
      StepProgress(s, steps[n]);
      NewLeaderNeedsMajority(s, steps[n]);
    }
  }

  /** No epoch below the counter's last value elects two leaders. */
  lemma OneElectionPerEpoch(c: Config, steps: seq<Step>, i: nat, j: nat)
    requires Legal(c, steps) && i < j < |Elections(c, steps)|
    requires Elections(c, steps)[i].epoch == Elections(c, steps)[j].epoch
    ensures Elections(c, steps)[j].epoch == U64_MAX
  {
    ElectionEpochsRise(c, steps);
  }

  /** In every reachable state the log is indexed from 1, its terms never fall and never pass the epoch. */
  lemma ReachableLog(c: Config, steps: seq<Step>)
    requires Legal(c, steps)
    ensures var s := Exec(c, steps);
      && (forall i :: 0 <= i < |s.log| ==> s.log[i].index == i + 1 && s.log[i].term <= s.epoch)
      && (forall i, j :: 0 <= i < j < |s.log| ==> s.log[i].term <= s.log[j].term)
      && (forall id :: id in s.applied ==> s.applied[id] <= |s.log|)
      && s.commitIndex <= |s.log|
  {
    ReachableInv(c, steps);
  }

  // ---------- Commit index ----------

  /** Steps that recompute the commit index. */
  ghost predicate Recomputes(s: State, step: Step) {
    match step
    case Register(_, _) => true
    case Campaign(_, _) => ElectionWinner(s, step).Some?
    case CheckFailover(_, _) => ElectionWinner(s, step).Some?
    case Append(_) => CanAppend(s)
    case Replicate => true
    case Rebalance(_) => true
    case Partition(_) => true
    case _ => false
  }

  /** The voters counted by the last recomputation that found a log and a voter. */
  ghost function Counted(c: Config, steps: seq<Step>): set<NodeId>
    requires Legal(c, steps)
    decreases |steps|
  {
    if steps == [] then {}
    else
      var n := |steps| - 1;
      var s := Exec(c, steps[..n]);
      var s' := Apply(s, steps[n]);
      if Recomputes(s, steps[n]) && s'.log != [] && AllWho(s', ReachableVoter) != {} then AllWho(s', ReachableVoter)
      else Counted(c, steps[..n])
  }

  /** What a recomputation leaves: the largest index that a majority of the reachable voters has applied. */
  ghost predicate IsQuorumIndex(s: State) {
    var voters := AllWho(s, ReachableVoter);
    && Backed(s.applied, voters, s.commitIndex)
    && forall d :: s.commitIndex < d ==> !Backed(s.applied, voters, d)
  }

  lemma ZeroIsBacked(applied: map<NodeId, nat>, voters: set<NodeId>)
    requires voters != {}
    ensures Backed(applied, voters, 0)
  {
    assert Backers(applied, voters, 0) == voters;
    assert |voters| > 0;
  }

  lemma NothingBackedPastLog(s: State, d: nat)
    requires LogOk(s) && d > |s.log|
    ensures !Backed(s.applied, AllWho(s, ReachableVoter), d)
  {
    assert Backers(s.applied, AllWho(s, ReachableVoter), d) == {};
  }

  /** How a step that recomputes the commit index may leave it. */
  ghost predicate FreshCommit(s: State, s': State) {
    if s'.log == [] then s'.commitIndex == 0
    else if AllWho(s', ReachableVoter) == {} then s'.commitIndex == s.commitIndex
    else IsQuorumIndex(s')
  }

  /** A recomputation yields the largest index that a majority of the counted voters has applied. */
  lemma RecomputeGivesQuorumIndex(s: State)
    requires LogOk(s)
    ensures FreshCommit(s, RecomputeCommitIndex(s))
  {
    var voters := AllWho(s, ReachableVoter);
    var s' := RecomputeCommitIndex(s);
    assert AllWho(s', ReachableVoter) == voters;
    if s.log != [] && voters != {} {
      ZeroIsBacked(s.applied, voters);
      forall d | s'.commitIndex < d ensures !Backed(s.applied, voters, d) {
        if d > |s.log| { NothingBackedPastLog(s, d); }
      }
    }
  }

  lemma FreshAfter(s: State, before: State)
    requires LogOk(before) && before.commitIndex == s.commitIndex
    ensures FreshCommit(s, RecomputeCommitIndex(before))
  {
    RecomputeGivesQuorumIndex(before);
  }

  lemma FreshHistory(s: State, s1: State, s2: State)
    requires FreshCommit(s, s1)
    requires s2.log == s1.log && s2.nodes == s1.nodes && s2.isolated == s1.isolated
    requires s2.applied == s1.applied && s2.commitIndex == s1.commitIndex
    ensures FreshCommit(s, s2)
  {
    assert AllWho(s2, ReachableVoter) == AllWho(s1, ReachableVoter);
  }

  lemma ElectFresh(s: State, winner: NodeId, order: seq<NodeId>)
    requires LogOk(s)
    ensures FreshCommit(s, Elect(s, winner, order))
  {
    InstalledFrame(s, winner, order);
    PushedFresh(s, Installed(s, winner, order), Noop, winner);
  }

  lemma PushedFresh(s: State, t: State, payload: LogPayload, id: NodeId)
    requires LogOk(t) && t.commitIndex == s.commitIndex
    ensures FreshCommit(s, RecomputeCommitIndex(BumpApplied(PushLog(t, payload), id)))
  {
    FreshAfter(s, BumpApplied(PushLog(t, payload), id));
  }

  lemma RebalanceFresh(s: State, order: seq<NodeId>)
    requires Inv(s)
    ensures FreshCommit(s, DoRebalance(s, order))
  {
    RespreadFrame(s, order);
    var s1 := PushLog(RebalanceReplicaSets(Respread(s), order), RebalanceNote(s));
    assert LogOk(s1);
    assert LogOk(MarkLeaderApplied(s1));
    FreshAfter(s, MarkLeaderApplied(s1));
    FreshHistory(s, RecomputeCommitIndex(MarkLeaderApplied(s1)), DoRebalance(s, order));
  }

  lemma FailoverFresh(s: State, now: nat, order: seq<NodeId>)
    requires Inv(s)
    ensures var u := UpdateLiveness(s, now);
      if FailoverElects(u, order) then FreshCommit(s, DoCheckFailover(s, now, order))
      else DoCheckFailover(s, now, order).commitIndex == s.commitIndex
  {
    LivenessInv(s, now);
    var u := UpdateLiveness(s, now);
    if FailoverElects(u, order) {
      var winner := FailoverWinner(u, order).value;
      ElectFresh(u, winner, order);
      FreshHistory(u, Elect(u, winner, order), DoCheckFailover(s, now, order));
    }
  }

  lemma RegisterFresh(s: State, node: ClusterNode, order: seq<NodeId>)
    requires Inv(s)
    ensures FreshCommit(s, DoRegister(s, node, order))
  {
    RegisteredInv(s, node);
    assert LogOk(RebalanceReplicaSets(Registered(s, node), order));
    FreshAfter(s, RebalanceReplicaSets(Registered(s, node), order));
  }

  lemma AppendFresh(s: State, payload: LogPayload)
    requires Inv(s) && CanAppend(s)
    ensures FreshCommit(s, DoAppend(s, payload))
  {
    var s1 := RefreshLag(BumpApplied(PushLog(s, payload), s.leaderId.value));
    assert LogOk(s1);
    FreshAfter(s, s1);
  }

  lemma ReplicateFresh(s: State)
    requires Inv(s)
    ensures FreshCommit(s, DoReplicate(s))
  {
    ReplicatedInv(s);
    var s1 := RefreshLag(s.(applied := Replicated(s)));
    assert LogOk(s1);
    FreshAfter(s, s1);
  }

  /** The commit index moves only in steps that recompute it, and then to a quorum index. */
  lemma StepRecomputes(s: State, step: Step)
    requires Inv(s) && Enabled(s, step)
    ensures if Recomputes(s, step) then FreshCommit(s, Apply(s, step))
            else Apply(s, step).commitIndex == s.commitIndex
  {
    match step
    case Register(node, order) => RegisterFresh(s, node, order);
    case Campaign(candidate, order) => if CampaignWins(s, candidate) { ElectFresh(s, candidate, order); }
    case CheckFailover(now, order) =>
      FailoverFresh(s, now, order);
      WinnerIsHealthyVoter(UpdateLiveness(s, now), order);
    case Append(payload) => if CanAppend(s) { AppendFresh(s, payload); }
    case Replicate => ReplicateFresh(s);
    case Rebalance(order) => RebalanceFresh(s, order);
    case Partition(isolated) => FreshAfter(s, s.(isolated := isolated));
    case _ =>
  }

  lemma BackedStays(applied: map<NodeId, nat>, applied': map<NodeId, nat>, voters: set<NodeId>, c: nat)
    requires forall id :: id in applied ==> id in applied' && applied[id] <= applied'[id]
    requires Backed(applied, voters, c)
    ensures Backed(applied', voters, c)
  {
    SubsetCard(Backers(applied, voters, c), Backers(applied', voters, c));
  }

  /**
   * In every reachable state the commit index is 0 or a majority of the voters counted when it was last computed
   * has applied it, even though later steps may have changed who is a voter.
   */
  lemma {:induction false} CommitStaysBacked(c: Config, steps: seq<Step>)
    requires Legal(c, steps)
    ensures var s := Exec(c, steps); s.commitIndex == 0 || Backed(s.applied, Counted(c, steps), s.commitIndex)
    decreases |steps|
  {
    if steps != [] {
      var n := |steps| - 1;
      var s := Exec(c, steps[..n]);
      CommitStaysBacked(c, steps[..n]);
      ReachableInv(c, steps[..n]);
      StepRecomputes(s, steps[n]);
      StepProgress(s, steps[n]);
      if s.commitIndex != 0 {
        BackedStays(s.applied, Apply(s, steps[n]).applied, Counted(c, steps[..n]), s.commitIndex);
      }
    }
  }

  // ---------- Failover ----------

  /** Every shard has a leader that is registered, not dead and reachable. */
  ghost predicate ShardsLed(s: State) {
    forall i :: 0 <= i < |s.shardMap.assignments| ==> !Down(s, s.shardMap.assignments[i].replicaSet.leaderId)
  }

  /** `leader` leads every shard and the other healthy reachable nodes follow. */
  ghost predicate LedBy(s: State, leader: NodeId) {
    forall i :: 0 <= i < |s.shardMap.assignments| ==>
      var rs := s.shardMap.assignments[i].replicaSet;
      && rs.leaderId == Some(leader)
      && forall f :: f in rs.followerIds <==> f in AllWho(s, HealthyReachable) && f != leader
  }

  lemma PlacedUnder(s: State, order: seq<NodeId>, leader: NodeId)
    requires s.leaderId == Some(leader) && Is(s, HealthyReachable, leader) && IsOrder(order, s.nodes.Keys)
    ensures LedBy(RebalanceReplicaSets(s, order), leader)
  {
    var healthy := Filter(order, Among(s, HealthyReachable));
    SelectedIs(s, HealthyReachable, order);
    assert leader in healthy;
    var s' := RebalanceReplicaSets(s, order);
    assert AllWho(s', HealthyReachable) == AllWho(s, HealthyReachable);
    FilterIn(healthy, Except(leader));
  }

  /** A healthy reachable winner leads every shard, with every other healthy reachable node following. */
  lemma ElectedLeadsEverything(s: State, winner: NodeId, order: seq<NodeId>)
    requires Inv(s) && Is(s, HealthyReachable, winner) && IsOrder(order, s.nodes.Keys)
    ensures var s' := Elect(s, winner, order);
      s'.leaderId == Some(winner) && Is(s', HealthyReachable, winner) && LedBy(s', winner)
  {
    var s1 := s.(epoch := NextEpoch(s.epoch), leaderId := Some(winner));
    RolesInv(s1.(epoch := s.epoch));
    var s2 := RefreshRoles(s1);
    assert s2.nodes.Keys == s.nodes.Keys;
    PlacedUnder(s2, order, winner);
    SameLed(Installed(s, winner, order), Elect(s, winner, order), winner);
  }

  lemma SameLed(s: State, t: State, leader: NodeId)
    requires LedBy(s, leader) && t.nodes == s.nodes && t.isolated == s.isolated && t.shardMap == s.shardMap
    ensures LedBy(t, leader)
  {
    assert AllWho(t, HealthyReachable) == AllWho(s, HealthyReachable);
  }

  lemma LedShardsAreLed(s: State, leader: NodeId)
    requires LedBy(s, leader) && Is(s, HealthyReachable, leader)
    ensures ShardsLed(s)
  {
  }

  lemma PromotedShardsAreLed(s: State, order: seq<NodeId>)
    requires IsOrder(order, s.nodes.Keys) && AllWho(s, HealthyReachable) != {}
    ensures ShardsLed(WithPromotions(s, order))
  {
    var a := s.shardMap.assignments;
    forall i | 0 <= i < |a| ensures !Down(s, PromotedAssignments(s, order)[i].replicaSet.leaderId) {
      SuccessorIsHealthy(s, a[i], order);
    }
  }

  lemma SameShardsLed(s: State, t: State)
    requires ShardsLed(s) && t.nodes == s.nodes && t.isolated == s.isolated && t.shardMap == s.shardMap
    ensures ShardsLed(t)
  {
  }

  /**
   * After a failover check: if the metadata leader is lost and the healthy reachable voters are below quorum, leader and
   * shard map are untouched; otherwise the metadata leader is registered, not dead and reachable, and so is every shard
   * leader unless no healthy reachable node exists at all.
   */
  lemma FailoverOutcome(s: State, now: nat, order: seq<NodeId>)
    requires Inv(s) && IsOrder(order, s.nodes.Keys)
    ensures var u, s' := UpdateLiveness(s, now), DoCheckFailover(s, now, order);
      if Down(u, u.leaderId) && !FailoverQuorum(u)
      then s'.leaderId == s.leaderId && s'.epoch == s.epoch && s'.shardMap == s.shardMap && s'.log == s.log
      else !Down(s', s'.leaderId) && (AllWho(s', HealthyReachable) != {} ==> ShardsLed(s'))
  {
    LivenessInv(s, now);
    var u := UpdateLiveness(s, now);
    WinnerIsHealthyVoter(u, order);
    if FailoverElects(u, order) {
      ElectedOutcome(u, order);
      OutcomeKept(AfterCheck(u, order), DoCheckFailover(s, now, order));
    } else if !Down(u, u.leaderId) {
      PromotedOutcome(u, order);
      OutcomeKept(AfterCheck(u, order), DoCheckFailover(s, now, order));
    }
  }

  /** The leader is up and, if anybody healthy is reachable, every shard is led. */
  ghost predicate AllLed(s: State) {
    !Down(s, s.leaderId) && (AllWho(s, HealthyReachable) != {} ==> ShardsLed(s))
  }

  lemma ElectedOutcome(u: State, order: seq<NodeId>)
    requires Inv(u) && IsOrder(order, u.nodes.Keys) && FailoverElects(u, order)
    ensures AllLed(AfterCheck(u, order))
  {
    WinnerIsHealthyVoter(u, order);
    var w := FailoverWinner(u, order).value;
    ElectedLeadsEverything(u, w, order);
    LedShardsAreLed(Elect(u, w, order), w);
  }

  lemma PromotedOutcome(u: State, order: seq<NodeId>)
    requires Inv(u) && IsOrder(order, u.nodes.Keys) && !Down(u, u.leaderId)
    ensures AllLed(AfterCheck(u, order))
  {
    if AllWho(u, HealthyReachable) != {} { PromotedShardsAreLed(u, order); }
    assert AllWho(AfterCheck(u, order), HealthyReachable) == AllWho(u, HealthyReachable);
  }

  lemma OutcomeKept(s: State, t: State)
    requires AllLed(s) && t.nodes == s.nodes && t.isolated == s.isolated && t.shardMap == s.shardMap
    requires t.leaderId == s.leaderId
    ensures AllLed(t)
  {
    assert AllWho(t, HealthyReachable) == AllWho(s, HealthyReachable);
    if ShardsLed(s) { SameShardsLed(s, t); }
  }

  /**
   * In every reachable state a shard's leader is not one of its followers, and its followers are distinct
   * registered nodes.
   */
  lemma ReachableReplicaSets(c: Config, steps: seq<Step>, i: nat)
    requires Legal(c, steps) && i < |Exec(c, steps).shardMap.assignments|
    ensures var s := Exec(c, steps);
      var rs := s.shardMap.assignments[i].replicaSet;
      && NoDup(rs.followerIds)
      && (forall f :: f in rs.followerIds ==> f in s.nodes)
      && (rs.leaderId.Some? ==> rs.leaderId.value in s.nodes && rs.leaderId.value !in rs.followerIds)
  {
    ReachableInv(c, steps);
    assert ReplicaOk(Exec(c, steps).shardMap.assignments[i].replicaSet, Exec(c, steps).nodes.Keys);
  }
}
