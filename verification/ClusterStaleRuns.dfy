/** Runs from boot on which eventual reads overshoot their bound. */
module ClusterStaleRuns {
  import opened Prelude
  import opened ClusterDomain
  import opened ClusterSpec
  import opened ClusterInvariants
  import opened ClusterElections
  import opened ClusterReads
  import Shards = ClusterShards

  const TIGHT_CONFIG := Config("default", 1, 1, 0, 5, 10, 0)

  const ORDER: seq<NodeId> := ["a", "b"]

  function FreshNode(id: NodeId): ClusterNode { ClusterNode(id, "", "default", Follower, Healthy, 0) }

  /** An eventual read of `key` goes to a follower that is `k` entries further behind than the bound allows. */
  ghost predicate OvershootsBy(s: State, key: Bytes, k: nat) {
    && FollowerRoute(s, key, None)
    && |s.log| == AppliedOf(s.applied, RouteRead(s, key, Eventual, None).value.targetNode) + s.config.maxEventualLag + k
  }

  /** Two reachable voters of the given health. */
  ghost predicate Pair(s: State, a: NodeStatus, b: NodeStatus) {
    && s.config == TIGHT_CONFIG && s.isolated == [] && s.nodes.Keys == {"a", "b"}
    && s.nodes["a"].status == a && !s.nodes["a"].role.Learner?
    && s.nodes["b"].status == b && !s.nodes["b"].role.Learner?
  }

  /** In every shard `b` is the only follower and is recorded as up to date. */
  ghost predicate OnlyB(s: State) {
    forall i :: 0 <= i < |s.shardMap.assignments| ==>
      var rs := s.shardMap.assignments[i].replicaSet;
      rs.leaderId.Some? && rs.LagOf("b") == Some(0) && rs.followerIds == ["b"]
  }

  lemma PairCounts(s: State, a: NodeStatus, b: NodeStatus)
    requires Pair(s, a, b) && a.IsVotable() && b.IsVotable()
    ensures AllWho(s, ReachableVoter) == {"a", "b"} && AllWho(s, Voter) == {"a", "b"} && IsOrder(ORDER, s.nodes.Keys)
    ensures AllWho(s, HealthyReachable) == (if a.Healthy? then {"a"} else {}) + (if b.Healthy? then {"b"} else {})
  {
    assert ORDER[0] == "a" && ORDER[1] == "b";
  }

  lemma PairRoutesToB(s: State, a: NodeStatus, key: Bytes)
    requires Inv(s) && Pair(s, a, Healthy) && OnlyB(s)
    ensures OvershootsBy(s, key, |s.log| - AppliedOf(s.applied, "b"))
  {
    var i := Shards.PartitionRoutes(s.shardMap, key);
    var rs := s.shardMap.assignments[i].replicaSet;
    assert Filter(["b"], Eligible(s, rs)) == ["b"] by { assert ["b"][..0] == []; }
  }

  // ---------- Boot to the first election ----------

  ghost predicate Unelected(s: State) {
    s.log == [] && s.leaderId == None && s.isolated == [] && s.config == TIGHT_CONFIG
  }

  lemma RegisterEffect(s: State, node: ClusterNode, order: seq<NodeId>)
    requires Unelected(s)
    ensures Unelected(DoRegister(s, node, order)) && DoRegister(s, node, order).nodes == s.nodes[node.nodeId := node]
  {
  }

  lemma TwoNodes() returns (run: seq<Step>)
    ensures Legal(TIGHT_CONFIG, run)
    ensures Unelected(Exec(TIGHT_CONFIG, run)) && Pair(Exec(TIGHT_CONFIG, run), Healthy, Healthy)
  {
    var one: seq<Step> := [Register(FreshNode("a"), ["a"])];
    assert IsOrder(["a"], Boot(TIGHT_CONFIG).nodes.Keys + {"a"});
    ExecSnoc(TIGHT_CONFIG, [], one[0]);
    assert [] + one == one;
    RegisterEffect(Boot(TIGHT_CONFIG), FreshNode("a"), ["a"]);
    var s := Exec(TIGHT_CONFIG, one);
    assert IsOrder(ORDER, s.nodes.Keys + {"b"}) by { assert ORDER[0] == "a" && ORDER[1] == "b"; }
    run := one + [Register(FreshNode("b"), ORDER)];
    ExecSnoc(TIGHT_CONFIG, one, Register(FreshNode("b"), ORDER));
    RegisterEffect(s, FreshNode("b"), ORDER);
  }

  /** `a` leads everything, and `b` is one entry behind what is recorded. */
  ghost predicate OneBehind(s: State) {
    && Inv(s) && Pair(s, Healthy, Healthy) && s.leaderId == Some("a") && OnlyB(s)
    && |s.log| == AppliedOf(s.applied, "b") + 1
  }

  lemma OnlyFollower(s: State)
    requires Inv(s) && Pair(s, Healthy, Healthy) && LedBy(s, "a") && OffByOne(s) && AllRecorded(s)
    requires |s.log| == AppliedOf(s.applied, "b") + 1
    ensures OnlyB(s)
  {
    PairCounts(s, Healthy, Healthy);
    forall i | 0 <= i < |s.shardMap.assignments|
      ensures var rs := s.shardMap.assignments[i].replicaSet;
        rs.leaderId.Some? && rs.LagOf("b") == Some(0) && rs.followerIds == ["b"]
    {
      var rs := s.shardMap.assignments[i].replicaSet;
      assert forall f :: f in rs.followerIds <==> f == "b";
      Singleton(rs.followerIds, "b");
      assert Recorded(rs) && OneShort(|s.log|, s.applied, rs.replicaLag);
      LagInIsAnEntry(rs.replicaLag, "b");
    }
  }

  lemma Singleton(xs: seq<NodeId>, x: NodeId)
    requires NoDup(xs) && forall y :: y in xs <==> y == x
    ensures xs == [x]
  {
    NoDupCard(xs);
    assert (set y | y in xs) == {x};
    assert xs[0] in xs;
  }

  lemma SeatedPair(s: State, a: NodeStatus, b: NodeStatus)
    requires Inv(s) && Pair(s, a, b)
    ensures Pair(Seated(s, "a"), a, b)
  {
    SeatedFrame(s, "a");
  }

  lemma ElectPair(s: State, a: NodeStatus, b: NodeStatus)
    requires Inv(s) && Pair(s, a, b)
    ensures Pair(Elect(s, "a", ORDER), a, b) && Elect(s, "a", ORDER).leaderId == Some("a")
  {
    SeatedPair(s, a, b);
    ElectNodes(s, "a", ORDER);
  }

  lemma FirstWins(s: State)
    requires Unelected(s) && Pair(s, Healthy, Healthy)
    ensures CampaignWins(s, "a")
  {
    PairCounts(s, Healthy, Healthy);
  }

  lemma FirstIsBehind(s: State)
    requires Inv(s) && Unelected(s) && Pair(s, Healthy, Healthy)
    ensures |Elect(s, "a", ORDER).log| == AppliedOf(Elect(s, "a", ORDER).applied, "b") + 1
  {
    ElectPushed(s, "a", ORDER);
    SeatedFrame(s, "a");
  }

  lemma FirstElection(s: State)
    requires Inv(s) && Unelected(s) && Pair(s, Healthy, Healthy)
    ensures OneBehind(Elect(s, "a", ORDER))
  {
    PairCounts(s, Healthy, Healthy);
    ElectInv(s, "a", ORDER);
    ElectPair(s, Healthy, Healthy);
    ElectedLeadsEverything(s, "a", ORDER);
    ElectionOffByOne(s, "a", ORDER);
    FirstIsBehind(s);
    OnlyFollower(Elect(s, "a", ORDER));
  }

  lemma Elected() returns (run: seq<Step>)
    ensures Legal(TIGHT_CONFIG, run) && OneBehind(Exec(TIGHT_CONFIG, run))
  {
    var two := TwoNodes();
    ReachableInv(TIGHT_CONFIG, two);
    var s := Exec(TIGHT_CONFIG, two);
    FirstWins(s);
    FirstElection(s);
    PairCounts(s, Healthy, Healthy);
    run := two + [Campaign("a", ORDER)];
    ExecSnoc(TIGHT_CONFIG, two, Campaign("a", ORDER));
  }

  /** Two registrations and an election: with a bound of 0 an eventual read is one entry behind. */
  lemma StaleReadAfterElection(key: Bytes) returns (run: seq<Step>)
    ensures Legal(TIGHT_CONFIG, run) && OvershootsBy(Exec(TIGHT_CONFIG, run), key, 1)
  {
    run := Elected();
    PairRoutesToB(Exec(TIGHT_CONFIG, run), Healthy, key);
  }

  // ---------- A rebalance ----------

  lemma ReplicateCatchesUp(s: State)
    requires OneBehind(s)
    ensures var t := DoReplicate(s);
      && Pair(t, Healthy, Healthy) && t.leaderId == Some("a")
      && |t.log| == |s.log| && AppliedOf(t.applied, "b") == |t.log|
  {
    assert Is(s, ReplicationTarget, "b");
  }

  lemma RebalanceFrame(s: State)
    requires Inv(s)
    ensures var t := DoRebalance(s, ORDER);
      && t.config == s.config && t.isolated == s.isolated && t.nodes == s.nodes && t.leaderId == s.leaderId
      && t.shardMap == RebalanceReplicaSets(Respread(s), ORDER).shardMap
  {
    RespreadFrame(s, ORDER);
  }

  lemma RebalancedLed(s: State)
    requires Inv(s) && Pair(s, Healthy, Healthy) && s.leaderId == Some("a")
    ensures LedBy(DoRebalance(s, ORDER), "a") && Pair(DoRebalance(s, ORDER), Healthy, Healthy)
  {
    PairCounts(s, Healthy, Healthy);
    RebalanceFrame(s);
    RespreadLags(s);
    PlacedUnder(Respread(s), ORDER, "a");
    SameLed(RebalanceReplicaSets(Respread(s), ORDER), DoRebalance(s, ORDER), "a");
  }

  lemma RebalanceLeavesBehind(s: State)
    requires Inv(s) && Pair(s, Healthy, Healthy) && s.leaderId == Some("a") && AppliedOf(s.applied, "b") == |s.log|
    ensures OneBehind(DoRebalance(s, ORDER))
  {
    PairCounts(s, Healthy, Healthy);
    RebalanceOk(s, ORDER);
    RebalancedLed(s);
    RebalanceFrame(s);
    RebalancePushed(s, ORDER);
    RebalanceOffByOne(s, ORDER);
    OnlyFollower(DoRebalance(s, ORDER));
  }

  /** Register twice, campaign, replicate, rebalance: everyone was up to date, and the read is one entry behind. */
  lemma StaleReadAfterRebalance(key: Bytes) returns (run: seq<Step>)
    ensures Legal(TIGHT_CONFIG, run) && run != [] && run[|run| - 1].Rebalance?
    ensures OvershootsBy(Exec(TIGHT_CONFIG, run), key, 1)
  {
    var first := Elected();
    var s := Exec(TIGHT_CONFIG, first);
    ExecSnoc(TIGHT_CONFIG, first, Replicate);
    ReplicateCatchesUp(s);
    var second := first + [Replicate];
    var t := Exec(TIGHT_CONFIG, second);
    ReachableInv(TIGHT_CONFIG, second);
    PairCounts(t, Healthy, Healthy);
    RebalanceLeavesBehind(t);
    run := second + [Rebalance(ORDER)];
    ExecSnoc(TIGHT_CONFIG, second, Rebalance(ORDER));
    PairRoutesToB(Exec(TIGHT_CONFIG, run), Healthy, key);
  }

  // ---------- Elections without a healthy node ----------

  /** Both nodes are suspect, and `b` is recorded as up to date but is `k` entries behind. */
  ghost predicate Drifting(s: State, k: nat) {
    && Inv(s) && Pair(s, Suspect, Suspect) && s.leaderId == Some("a") && OnlyB(s)
    && |s.log| == AppliedOf(s.applied, "b") + k
  }

  lemma StatusFrame(s: State, id: NodeId, status: NodeStatus)
    ensures var t := DoSetStatus(s, id, status); t.shardMap == s.shardMap && t.log == s.log && t.applied == s.applied
  {
  }

  lemma BothSuspect(first: seq<Step>) returns (run: seq<Step>)
    requires Legal(TIGHT_CONFIG, first) && OneBehind(Exec(TIGHT_CONFIG, first))
    ensures Legal(TIGHT_CONFIG, run) && Drifting(Exec(TIGHT_CONFIG, run), 1)
  {
    var s := Exec(TIGHT_CONFIG, first);
    ExecSnoc(TIGHT_CONFIG, first, SetStatus("a", Suspect));
    var t := DoSetStatus(s, "a", Suspect);
    ExecSnoc(TIGHT_CONFIG, first + [SetStatus("a", Suspect)], SetStatus("b", Suspect));
    run := first + [SetStatus("a", Suspect)] + [SetStatus("b", Suspect)];
    StatusFrame(s, "a", Suspect);
    StatusFrame(t, "b", Suspect);
    ReachableInv(TIGHT_CONFIG, run);
    assert OnlyB(Exec(TIGHT_CONFIG, run));
  }

  lemma DriftWins(s: State)
    requires Pair(s, Suspect, Suspect) && s.leaderId == Some("a")
    ensures CampaignWins(s, "a") && IsOrder(ORDER, s.nodes.Keys) && AllWho(s, HealthyReachable) == {}
  {
    PairCounts(s, Suspect, Suspect);
  }

  lemma DriftLog(s: State)
    requires Inv(s) && Pair(s, Suspect, Suspect)
    ensures var t := Elect(s, "a", ORDER);
      |t.log| == |s.log| + 1 && AppliedOf(t.applied, "b") == AppliedOf(s.applied, "b")
  {
    SeatedFrame(s, "a");
    ElectPushed(s, "a", ORDER);
  }

  /** With nobody healthy an election adds its entry and leaves replica sets and recorded lags as they were. */
  lemma DriftStep(s: State, k: nat)
    requires Drifting(s, k)
    ensures CampaignWins(s, "a") && IsOrder(ORDER, s.nodes.Keys) && Drifting(Elect(s, "a", ORDER), k + 1)
  {
    DriftWins(s);
    DriftLog(s);
    UnhealthyElectionFreezesLag(s, "a", ORDER);
    ElectInv(s, "a", ORDER);
    ElectPair(s, Suspect, Suspect);
  }

  lemma {:induction false} Drift(k: nat) returns (run: seq<Step>)
    ensures Legal(TIGHT_CONFIG, run) && Drifting(Exec(TIGHT_CONFIG, run), k + 1)
  {
    if k == 0 {
      var first := Elected();
      run := BothSuspect(first);
    } else {
      var before := Drift(k - 1);
      var s := Exec(TIGHT_CONFIG, before);
      DriftStep(s, k);
      run := before + [Campaign("a", ORDER)];
      ExecSnoc(TIGHT_CONFIG, before, Campaign("a", ORDER));
    }
  }

  /** Staleness has no bound of its own: for every `k` some run ends with an eventual read `k` entries over its bound. */
  lemma StalenessIsUnbounded(k: nat, key: Bytes) returns (run: seq<Step>)
    requires k > 0
    ensures Legal(TIGHT_CONFIG, run) && OvershootsBy(Exec(TIGHT_CONFIG, run), key, k)
  {
    var before := Drift(k - 1);
    var s := Exec(TIGHT_CONFIG, before);
    run := before + [SetStatus("b", Healthy)];
    ExecSnoc(TIGHT_CONFIG, before, SetStatus("b", Healthy));
    StatusFrame(s, "b", Healthy);
    ReachableInv(TIGHT_CONFIG, run);
    var t := Exec(TIGHT_CONFIG, run);
    assert Pair(t, Suspect, Healthy) && OnlyB(t);
    PairRoutesToB(t, Suspect, key);
  }
}
