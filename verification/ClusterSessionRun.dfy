/** Runs on which a session reads an older state than before. */
module ClusterSessionRun {
  import opened Prelude
  import opened ClusterDomain
  import opened ClusterSpec
  import opened ClusterInvariants
  import opened ClusterReads
  import opened ClusterRouting
  import opened ClusterStaleRuns
  import Shards = ClusterShards

  const NODE_A := ClusterNode("a", "", "default", Follower, Suspect, 20)
  const NODE_B := ClusterNode("b", "", "default", Follower, Healthy, 0)
  const NODE_C := ClusterNode("c", "", "default", Follower, Healthy, 20)

  const TRIO: seq<NodeId> := ["a", "b", "c"]

  /** `a`, still suspect, has won an election; the nodes in `applied` are registered. */
  ghost predicate Cast(s: State, applied: map<NodeId, nat>) {
    && s.config == TIGHT_CONFIG && s.isolated == [] && s.leaderId == Some("a") && |s.log| == 1
    && s.applied == applied && s.nodes.Keys == applied.Keys && applied.Keys <= {"a", "b", "c"}
    && ("a" in s.nodes ==> s.nodes["a"] == NODE_A.(role := NodeRole.Leader))
    && ("b" in s.nodes ==> s.nodes["b"] == NODE_B)
    && ("c" in s.nodes ==> s.nodes["c"] == NODE_C)
  }

  lemma RegisterFrame(s: State, node: ClusterNode, order: seq<NodeId>)
    ensures var t, u := DoRegister(s, node, order), Registered(s, node);
      && t.nodes == u.nodes && t.applied == u.applied && t.shardMap == RebalanceReplicaSets(u, order).shardMap
      && t.log == s.log && t.leaderId == s.leaderId && t.isolated == s.isolated && t.config == s.config
      && t.sessions == s.sessions
  {
  }

  ghost predicate NoReads(run: seq<Step>) { forall k :: 0 <= k < |run| ==> !run[k].ReadSession? }

  /** A legal run without reads that ends with this cast. */
  ghost predicate At(run: seq<Step>, applied: map<NodeId, nat>) {
    Legal(TIGHT_CONFIG, run) && NoReads(run) && Cast(Exec(TIGHT_CONFIG, run), applied)
  }

  ghost predicate Lone(s: State) { Inv(s) && Unelected(s) && s.nodes == map["a" := NODE_A] }

  lemma LoneWins(s: State)
    requires Lone(s)
    ensures CampaignWins(s, "a") && IsOrder(["a"], s.nodes.Keys)
  {
    assert AllWho(s, ReachableVoter) == {"a"} && AllWho(s, Voter) == {"a"};
  }

  lemma LoneApplied(s: State)
    requires Lone(s)
    ensures Elect(s, "a", ["a"]).applied == map["a" := 1]
  {
  }

  lemma LoneCast(s: State, t: State)
    requires Lone(s) && t.nodes == Seated(s, "a").nodes && t.isolated == s.isolated && t.config == s.config
    requires t.leaderId == Some("a") && |t.log| == 1 && t.applied == map["a" := 1]
    ensures Cast(t, map["a" := 1])
  {
    SeatedFrame(s, "a");
  }

  lemma LoneElection(s: State)
    requires Lone(s)
    ensures Cast(Elect(s, "a", ["a"]), map["a" := 1])
  {
    ElectNodes(s, "a", ["a"]);
    LoneLog(s);
    LoneApplied(s);
    LoneCast(s, Elect(s, "a", ["a"]));
  }

  lemma LoneLog(s: State)
    requires Lone(s)
    ensures |Elect(s, "a", ["a"]).log| == 1
  {
    ElectPushed(s, "a", ["a"]);
    SeatedFrame(s, "a");
  }

  lemma JoinA() returns (run: seq<Step>)
    ensures Legal(TIGHT_CONFIG, run) && NoReads(run) && Lone(Exec(TIGHT_CONFIG, run))
  {
    run := [Register(NODE_A, ["a"])];
    assert IsOrder(["a"], Boot(TIGHT_CONFIG).nodes.Keys + {"a"});
    ExecSnoc(TIGHT_CONFIG, [], run[0]);
    assert [] + run == run;
    RegisterEffect(Boot(TIGHT_CONFIG), NODE_A, ["a"]);
    ReachableInv(TIGHT_CONFIG, run);
  }

  lemma LoneCampaign(run: seq<Step>)
    requires Legal(TIGHT_CONFIG, run) && NoReads(run) && Lone(Exec(TIGHT_CONFIG, run))
    ensures At(run + [Campaign("a", ["a"])], map["a" := 1])
  {
    var s := Exec(TIGHT_CONFIG, run);
    LoneWins(s);
    LoneElection(s);
    ExecSnoc(TIGHT_CONFIG, run, Campaign("a", ["a"]));
  }

  lemma CatchUpB(s: State)
    requires Cast(s, map["a" := 1, "b" := 0])
    ensures Cast(DoReplicate(s), map["a" := 1, "b" := 1])
  {
    assert AllWho(s, ReplicationTarget) == {"b"};
    assert Replicated(s) == map["a" := 1, "b" := 1];
  }

  /** `b` leads the one shard and `c`, which has applied nothing, follows. */
  ghost predicate LedByB(s: State) {
    && Inv(s) && Cast(s, map["a" := 1, "b" := 1, "c" := 0]) && |s.shardMap.assignments| == 1
    && s.shardMap.assignments[0].replicaSet.leaderId == Some("b")
    && s.shardMap.assignments[0].replicaSet.followerIds == ["c"]
  }

  lemma HealthyTrio(s: State)
    requires Cast(s, map["a" := 1, "b" := 1, "c" := 0])
    ensures Filter(TRIO, Among(s, HealthyReachable)) == ["b", "c"]
  {
    var among := Among(s, HealthyReachable);
    assert TRIO[..2] == ["a", "b"] && ["a", "b"][..1] == ["a"] && ["a"][..0] == [];
    assert Filter(["a"], among) == [];
    assert Filter(["a", "b"], among) == ["b"];
  }

  lemma PlacedTrio(u: State)
    requires Cast(u, map["a" := 1, "b" := 1, "c" := 0]) && |u.shardMap.assignments| == 1
    ensures var m := RebalanceReplicaSets(u, TRIO).shardMap;
      && |m.assignments| == 1
      && m.assignments[0].replicaSet.leaderId == Some("b") && m.assignments[0].replicaSet.followerIds == ["c"]
  {
    HealthyTrio(u);
    assert Filter(["b", "c"], Except("b")) == ["c"] by {
      assert ["b", "c"][..1] == ["b"] && ["b"][..0] == [];
      assert Filter(["b"], Except("b")) == [];
    }
  }

  lemma RegisterC(s: State)
    requires Inv(s) && Cast(s, map["a" := 1, "b" := 1]) && |s.shardMap.assignments| == 1
    ensures IsOrder(TRIO, s.nodes.Keys + {"c"}) && LedByB(DoRegister(s, NODE_C, TRIO))
  {
    TrioOrder(s.nodes.Keys + {"c"});
    RegisterOk(s, NODE_C, TRIO);
    RegisterFrame(s, NODE_C, TRIO);
    PlacedTrio(Registered(s, NODE_C));
  }

  lemma RegisterB(s: State)
    requires Cast(s, map["a" := 1])
    ensures Cast(DoRegister(s, NODE_B, ORDER), map["a" := 1, "b" := 0])
  {
    RegisterFrame(s, NODE_B, ORDER);
  }

  lemma {:induction false} OneShard(run: seq<Step>)
    requires Legal(TIGHT_CONFIG, run)
    ensures |Exec(TIGHT_CONFIG, run).shardMap.assignments| == 1
    decreases |run|
  {
    if run != [] {
      var s := Exec(TIGHT_CONFIG, run[..|run| - 1]);
      OneShard(run[..|run| - 1]);
      ReachableInv(TIGHT_CONFIG, run[..|run| - 1]);
      KeepsShardCount(s, run[|run| - 1]);
    }
  }

  lemma ElectShardCount(s: State, winner: NodeId, order: seq<NodeId>)
    requires Inv(s) && winner in s.nodes
    ensures |Elect(s, winner, order).shardMap.assignments| == |s.shardMap.assignments|
  {
    ElectPushed(s, winner, order);
    SeatedFrame(s, winner);
  }

  lemma KeepsShardCount(s: State, step: Step)
    requires Inv(s) && Enabled(s, step)
    ensures |Apply(s, step).shardMap.assignments| == |s.shardMap.assignments|
  {
    if LeavesLags(s, step) {
      LagsAreLeft(s, step);
    } else {
      match step
      case Campaign(candidate, order) => ElectShardCount(s, candidate, order);
      case CheckFailover(now, order) =>
        FailoverElectsIn(s, now, order);
        ElectShardCount(UpdateLiveness(s, now), FailoverWinner(UpdateLiveness(s, now), order).value, order);
      case Rebalance(order) => RebalancePushed(s, order);
      case Register(node, order) => RegisterFrame(s, node, order);
      case _ =>
    }
  }

  lemma JoinB(run: seq<Step>)
    requires At(run, map["a" := 1])
    ensures At(run + [Register(NODE_B, ORDER)], map["a" := 1, "b" := 0])
  {
    var s := Exec(TIGHT_CONFIG, run);
    assert IsOrder(ORDER, s.nodes.Keys + {"b"}) by { assert ORDER[0] == "a" && ORDER[1] == "b"; }
    ExecSnoc(TIGHT_CONFIG, run, Register(NODE_B, ORDER));
    RegisterB(s);
  }

  lemma CatchUp(run: seq<Step>)
    requires At(run, map["a" := 1, "b" := 0])
    ensures At(run + [Replicate], map["a" := 1, "b" := 1])
  {
    CatchUpB(Exec(TIGHT_CONFIG, run));
    ExecSnoc(TIGHT_CONFIG, run, Replicate);
  }

  lemma TrioOrder(keys: set<NodeId>)
    requires keys == {"a", "b", "c"}
    ensures IsOrder(TRIO, keys)
  {
    assert TRIO[0] == "a" && TRIO[1] == "b" && TRIO[2] == "c";
  }

  lemma JoinC(run: seq<Step>)
    requires At(run, map["a" := 1, "b" := 1])
    ensures var after := run + [Register(NODE_C, TRIO)];
      Legal(TIGHT_CONFIG, after) && NoReads(after) && LedByB(Exec(TIGHT_CONFIG, after))
  {
    var s := Exec(TIGHT_CONFIG, run);
    ReachableInv(TIGHT_CONFIG, run);
    OneShard(run);
    RegisterC(s);
    ExecSnoc(TIGHT_CONFIG, run, Register(NODE_C, TRIO));
  }

  lemma LoneRun() returns (run: seq<Step>)
    ensures At(run, map["a" := 1])
  {
    var one := JoinA();
    LoneCampaign(one);
    run := one + [Campaign("a", ["a"])];
  }

  lemma FirstTwo() returns (run: seq<Step>)
    ensures At(run, map["a" := 1, "b" := 0])
  {
    var lone := LoneRun();
    JoinB(lone);
    run := lone + [Register(NODE_B, ORDER)];
  }

  lemma TrioRun() returns (run: seq<Step>)
    ensures Legal(TIGHT_CONFIG, run) && NoReads(run) && LedByB(Exec(TIGHT_CONFIG, run))
  {
    var two := FirstTwo();
    CatchUp(two);
    JoinC(two + [Replicate]);
    run := two + [Replicate] + [Register(NODE_C, TRIO)];
  }

  lemma AgedTrio(s: State)
    requires Cast(s, map["a" := 1, "b" := 1, "c" := 0])
    ensures var u := UpdateLiveness(s, 20);
      && u.nodes.Keys == s.nodes.Keys && u.leaderId == Some("a") && u.isolated == []
      && u.nodes["a"].status.Healthy? && u.nodes["b"].status.Dead? && u.nodes["c"].status.Healthy?
  {
  }

  lemma BIsReplaced(s: State, a: ShardAssignment)
    requires Cast(s, map["a" := 1, "b" := 1, "c" := 0])
    requires a.replicaSet.leaderId == Some("b") && a.replicaSet.followerIds == ["c"]
    ensures var u := UpdateLiveness(s, 20);
      && !Down(u, u.leaderId) && u.nodes["b"].status.Dead?
      && NeedsPromotion(u, a, TRIO) && Successor(u, a, TRIO) == Some("c")
  {
    var u := UpdateLiveness(s, 20);
    AgedTrio(s);
    assert Is(u, HealthyReachable, "c");
    assert Filter(["c"], Among(u, HealthyReachable)) == ["c"] by { assert ["c"][..0] == []; }
  }

  lemma OnlyShard(s: State, key: Bytes)
    requires LedByB(s)
    ensures ShardForKey(s.shardMap, key) == Some(s.shardMap.assignments[0])
  {
    var i := Shards.PartitionRoutes(s.shardMap, key);
  }

  /** `b` is pinned to the session. */
  ghost predicate PinnedToB(s: State) { "s" in s.sessions && s.sessions["s"] == "b" }

  lemma ReadFromB(s: State, key: Bytes)
    requires LedByB(s) && "s" !in s.sessions
    ensures LedByB(DoReadSession(s, key, "s", Session)) && PinnedToB(DoReadSession(s, key, "s", Session))
  {
    OnlyShard(s, key);
    ReadSessionOk(s, key, "s", Session);
  }

  lemma BackFrom(t: State, key: Bytes)
    requires LedByB(t) && PinnedToB(t)
    ensures IsOrder(TRIO, t.nodes.Keys) && GoesBack(t, DoCheckFailover(t, 20, TRIO), key, "s")
  {
    OnlyShard(t, key);
    TrioOrder(t.nodes.Keys);
    BIsReplaced(t, t.shardMap.assignments[0]);
    PromotionFallback(t, 20, TRIO, key, "s");
  }

  lemma PinB(run: seq<Step>, key: Bytes)
    requires Legal(TIGHT_CONFIG, run) && NoReads(run) && LedByB(Exec(TIGHT_CONFIG, run))
    ensures var after := run + [ReadSession(key, "s", Session)];
      && Legal(TIGHT_CONFIG, after)
      && var t := Exec(TIGHT_CONFIG, after); LedByB(t) && PinnedToB(t)
  {
    var s := Exec(TIGHT_CONFIG, run);
    NoSessionsYet(TIGHT_CONFIG, run, "s");
    ReadFromB(s, key);
    ExecSnoc(TIGHT_CONFIG, run, ReadSession(key, "s", Session));
  }

  lemma CheckGoesBack(run: seq<Step>, key: Bytes)
    requires Legal(TIGHT_CONFIG, run)
    requires var t := Exec(TIGHT_CONFIG, run); LedByB(t) && PinnedToB(t)
    ensures Enabled(Exec(TIGHT_CONFIG, run), CheckFailover(20, TRIO))
    ensures GoesBack(Exec(TIGHT_CONFIG, run), Apply(Exec(TIGHT_CONFIG, run), CheckFailover(20, TRIO)), key, "s")
  {
    BackFrom(Exec(TIGHT_CONFIG, run), key);
  }

  /**
   * A session goes back: its second read, after the shard leader died and `c` was promoted, is served by a node that
   * has applied less than the first.
   */
  lemma SessionReadGoesBack(key: Bytes) returns (run: seq<Step>, check: Step)
    ensures Legal(TIGHT_CONFIG, run) && check.CheckFailover? && Enabled(Exec(TIGHT_CONFIG, run), check)
    ensures GoesBack(Exec(TIGHT_CONFIG, run), Apply(Exec(TIGHT_CONFIG, run), check), key, "s")
  {
    var before := TrioRun();
    PinB(before, key);
    run, check := before + [ReadSession(key, "s", Session)], CheckFailover(20, TRIO);
    CheckGoesBack(run, key);
  }

  // ---------- Without a failover check ----------

  const BACKWARDS: seq<NodeId> := ["c", "b", "a"]

  lemma BackwardsOrder(keys: set<NodeId>)
    requires keys == {"a", "b", "c"}
    ensures IsOrder(BACKWARDS, keys)
  {
    assert BACKWARDS[0] == "c" && BACKWARDS[1] == "b" && BACKWARDS[2] == "a";
  }

  /** `c` leads the one shard, and `b` is no longer healthy. */
  ghost predicate LedByC(s: State) {
    && Inv(s) && |s.shardMap.assignments| == 1 && s.shardMap.assignments[0].replicaSet.leaderId == Some("c")
    && "b" in s.nodes && !s.nodes["b"].status.Healthy? && AppliedOf(s.applied, "c") == 0
  }

  lemma HealthyBackwards(s: State)
    requires Cast(s, map["a" := 1, "b" := 1, "c" := 0])
    ensures Filter(BACKWARDS, Among(s, HealthyReachable)) == ["c", "b"]
  {
    var among := Among(s, HealthyReachable);
    assert BACKWARDS[..2] == ["c", "b"] && ["c", "b"][..1] == ["c"] && ["c"][..0] == [];
    assert Filter(["c"], among) == ["c"];
    assert Filter(["c", "b"], among) == ["c", "b"];
  }

  lemma PlacedBackwards(u: State)
    requires Cast(u, map["a" := 1, "b" := 1, "c" := 0]) && |u.shardMap.assignments| == 1
    ensures var m := RebalanceReplicaSets(u, BACKWARDS).shardMap;
      |m.assignments| == 1 && m.assignments[0].replicaSet.leaderId == Some("c")
  {
    HealthyBackwards(u);
  }

  /** Registering `c` once more, with `c` first in the node table, makes it the leader. */
  lemma RegisterAgain(s: State)
    requires LedByB(s) && PinnedToB(s)
    ensures IsOrder(BACKWARDS, s.nodes.Keys + {"c"})
    ensures var t := DoRegister(s, NODE_C, BACKWARDS);
      && Inv(t) && t.nodes == s.nodes && t.applied == s.applied && PinnedToB(t) && |t.shardMap.assignments| == 1
      && t.shardMap.assignments[0].replicaSet.leaderId == Some("c")
  {
    BackwardsOrder(s.nodes.Keys + {"c"});
    RegisterOk(s, NODE_C, BACKWARDS);
    RegisterFrame(s, NODE_C, BACKWARDS);
    assert Registered(s, NODE_C).nodes == s.nodes;
    PlacedBackwards(Registered(s, NODE_C));
  }

  lemma SuspectB(s: State)
    requires Inv(s) && "b" in s.nodes && PinnedToB(s) && AppliedOf(s.applied, "c") == 0 && |s.shardMap.assignments| == 1
    requires s.shardMap.assignments[0].replicaSet.leaderId == Some("c")
    ensures LedByC(DoSetStatus(s, "b", Suspect)) && PinnedToB(DoSetStatus(s, "b", Suspect))
  {
    SetStatusOk(s, "b", Suspect);
  }

  lemma ReadFromC(s: State, key: Bytes)
    requires LedByC(s) && PinnedToB(s)
    ensures SessionTarget(s, key, "s") == Some("c")
  {
    var i := Shards.PartitionRoutes(s.shardMap, key);
    PinnedRead(s, key, "s");
  }

  ghost predicate NoChecks(more: seq<Step>) {
    forall k :: 0 <= k < |more| ==> !more[k].CheckFailover? && !more[k].ReadSession?
  }

  lemma FirstMove(s: State) returns (x: Step, t: State)
    requires LedByB(s) && PinnedToB(s)
    ensures Enabled(s, x) && t == Apply(s, x) && !x.CheckFailover? && !x.ReadSession?
    ensures Inv(t) && "b" in t.nodes && PinnedToB(t) && AppliedOf(t.applied, "c") == 0
    ensures |t.shardMap.assignments| == 1 && t.shardMap.assignments[0].replicaSet.leaderId == Some("c")
  {
    RegisterAgain(s);
    x, t := Register(NODE_C, BACKWARDS), DoRegister(s, NODE_C, BACKWARDS);
  }

  /** The two steps that move the session. */
  lemma MovesFrom(s: State) returns (x: Step, y: Step)
    requires LedByB(s) && PinnedToB(s)
    ensures Enabled(s, x) && Enabled(Apply(s, x), y) && NoChecks([x, y])
    ensures var u := Apply(Apply(s, x), y); LedByC(u) && PinnedToB(u)
  {
    var t;
    x, t := FirstMove(s);
    y := SetStatus("b", Suspect);
    SuspectB(t);
  }

  lemma TwoSteps(run: seq<Step>, x: Step, y: Step)
    requires Legal(TIGHT_CONFIG, run) && Enabled(Exec(TIGHT_CONFIG, run), x)
    requires Enabled(Apply(Exec(TIGHT_CONFIG, run), x), y)
    ensures Legal(TIGHT_CONFIG, run + [x, y])
    ensures Exec(TIGHT_CONFIG, run + [x, y]) == Apply(Apply(Exec(TIGHT_CONFIG, run), x), y)
  {
    ExecSnoc(TIGHT_CONFIG, run, x);
    ExecSnoc(TIGHT_CONFIG, run + [x], y);
    assert run + [x] + [y] == run + [x, y];
  }

  lemma MoveToC(run: seq<Step>) returns (more: seq<Step>)
    requires Legal(TIGHT_CONFIG, run) && LedByB(Exec(TIGHT_CONFIG, run)) && PinnedToB(Exec(TIGHT_CONFIG, run))
    ensures Legal(TIGHT_CONFIG, run + more) && NoChecks(more)
    ensures LedByC(Exec(TIGHT_CONFIG, run + more)) && PinnedToB(Exec(TIGHT_CONFIG, run + more))
  {
    var x, y := MovesFrom(Exec(TIGHT_CONFIG, run));
    TwoSteps(run, x, y);
    more := [x, y];
  }

  lemma FirstReadFromB(s: State, key: Bytes)
    requires LedByB(s) && "s" !in s.sessions
    ensures SessionTarget(s, key, "s") == Some("b") && AppliedOf(s.applied, "b") == 1
  {
    OnlyShard(s, key);
  }

  lemma ReadThenMove(steps: seq<Step>, key: Bytes) returns (more: seq<Step>)
    requires Legal(TIGHT_CONFIG, steps) && NoReads(steps) && LedByB(Exec(TIGHT_CONFIG, steps))
    ensures var run := steps + [ReadSession(key, "s", Session)] + more;
      && Legal(TIGHT_CONFIG, run) && NoChecks(more)
      && LedByC(Exec(TIGHT_CONFIG, run)) && PinnedToB(Exec(TIGHT_CONFIG, run))
  {
    PinB(steps, key);
    more := MoveToC(steps + [ReadSession(key, "s", Session)]);
  }

  /** A session goes back without any failover check: `c` registers again and takes the lead, and `b` falls suspect. */
  lemma SessionGoesBackUnpromoted(key: Bytes) returns (steps: seq<Step>, more: seq<Step>)
    ensures Legal(TIGHT_CONFIG, steps) && SessionTarget(Exec(TIGHT_CONFIG, steps), key, "s").Some?
    ensures var run := steps + [ReadSession(key, "s", Session)] + more;
      && Legal(TIGHT_CONFIG, run) && NoChecks(more)
      && var s, s' := Exec(TIGHT_CONFIG, steps), Exec(TIGHT_CONFIG, run);
         && SessionTarget(s', key, "s").Some?
         && AppliedOf(s'.applied, SessionTarget(s', key, "s").value)
              < AppliedOf(s.applied, SessionTarget(s, key, "s").value)
  {
    steps := TrioRun();
    NoSessionsYet(TIGHT_CONFIG, steps, "s");
    FirstReadFromB(Exec(TIGHT_CONFIG, steps), key);
    more := ReadThenMove(steps, key);
    ReadFromC(Exec(TIGHT_CONFIG, steps + [ReadSession(key, "s", Session)] + more), key);
  }
}
