/** Staleness of eventual reads over whole runs. */
module ClusterReads {
  import opened Prelude
  import opened ClusterDomain
  import opened ClusterSpec
  import opened ClusterInvariants
  import opened ClusterElections

  // ---------- Recorded lag ----------

  /** Every recorded lag, current follower or not, falls short of the true one by at most `d`. */
  ghost predicate LagWithin(s: State, d: nat) {
    forall i :: 0 <= i < |s.shardMap.assignments| ==> CoversLags(s, s.shardMap.assignments[i].replicaSet.replicaLag, d)
  }

  ghost predicate CoversLags(s: State, lags: seq<(NodeId, nat)>, d: nat) {
    forall j :: 0 <= j < |lags| ==> |s.log| <= AppliedOf(s.applied, lags[j].0) + lags[j].1 + d
  }

  lemma {:induction false} LagInIsAnEntry(lags: seq<(NodeId, nat)>, f: NodeId)
    ensures LagIn(lags, f).Some? ==> (f, LagIn(lags, f).value) in lags
    ensures LagIn(lags, f).None? ==> forall j :: 0 <= j < |lags| ==> lags[j].0 != f
  {
    if lags != [] && lags[0].0 != f { LagInIsAnEntry(lags[1..], f); }
  }

  lemma LagListCovers(s: State, followers: seq<NodeId>)
    ensures CoversLags(s, LagList(s, followers), 0)
  {
  }

  lemma RefreshedIsExact(s: State)
    ensures LagWithin(RefreshLag(s), 0)
  {
    forall i | 0 <= i < |s.shardMap.assignments|
      ensures CoversLags(RefreshLag(s), RefreshLag(s).shardMap.assignments[i].replicaSet.replicaLag, 0)
    {
      LagListCovers(s, s.shardMap.assignments[i].replicaSet.followerIds);
    }
  }

  /** Placement records the true lags, unless no healthy node is reachable: then it does nothing. */
  lemma PlacedIsExact(s: State, order: seq<NodeId>)
    requires IsOrder(order, s.nodes.Keys)
    ensures AllWho(s, HealthyReachable) == {} ==> RebalanceReplicaSets(s, order) == s
    ensures AllWho(s, HealthyReachable) != {} ==> LagWithin(RebalanceReplicaSets(s, order), 0)
  {
    SelectedIs(s, HealthyReachable, order);
    var healthy := Filter(order, Among(s, HealthyReachable));
    var s' := RebalanceReplicaSets(s, order);
    if healthy != [] {
      forall i | 0 <= i < |s'.shardMap.assignments|
        ensures CoversLags(s', s'.shardMap.assignments[i].replicaSet.replicaLag, 0)
      {
        LagListCovers(s, Filter(healthy, Except(Primary(s, healthy, i))));
      }
    }
  }

  ghost predicate SameLags(s: State, t: State) {
    && |t.shardMap.assignments| == |s.shardMap.assignments|
    && forall i :: 0 <= i < |s.shardMap.assignments| ==>
         t.shardMap.assignments[i].replicaSet.replicaLag == s.shardMap.assignments[i].replicaSet.replicaLag
  }

  /** Two states that agree on lags; what the log gained is added to the bound. */
  lemma WithinTransfers(s: State, t: State, d: nat, e: nat)
    requires LagWithin(s, d) && SameLags(s, t) && |t.log| + d <= |s.log| + e
    requires forall id :: AppliedOf(s.applied, id) <= AppliedOf(t.applied, id)
    ensures LagWithin(t, e)
  {
    forall i | 0 <= i < |t.shardMap.assignments|
      ensures CoversLags(t, t.shardMap.assignments[i].replicaSet.replicaLag, e)
    {
      assert CoversLags(s, s.shardMap.assignments[i].replicaSet.replicaLag, d);
    }
  }

  // ---------- How far recorded lags can be off ----------

  /** The steps that add a log entry without refreshing lags after it. */
  ghost predicate DisturbsLag(s: State, step: Step) {
    step.Rebalance? || ElectionWinner(s, step).Some?
  }

  ghost predicate RefreshesLag(s: State, step: Step) {
    step.Replicate? || (step.Append? && CanAppend(s))
  }

  /** Whether the step, if it places replica sets, finds a healthy reachable node to place. */
  ghost predicate CanPlace(s: State, step: Step) {
    var t := if step.Register? then Registered(s, step.node) else Judged(s, step);
    AllWho(t, HealthyReachable) != {}
  }

  /** How far recorded lags can be off after a step, when they could be off by `before`. */
  ghost function DebtAfter(s: State, step: Step, before: nat): nat {
    if RefreshesLag(s, step) then 0
    else if step.Register? then (if CanPlace(s, step) then 0 else before)
    else if DisturbsLag(s, step) then (if CanPlace(s, step) then 1 else before + 1)
    else before
  }

  ghost function Debt(c: Config, steps: seq<Step>): nat
    requires Legal(c, steps)
    decreases |steps|
  {
    if steps == [] then 0
    else var n := |steps| - 1; DebtAfter(Exec(c, steps[..n]), steps[n], Debt(c, steps[..n]))
  }

  lemma RefreshWithin(s: State, step: Step)
    requires Enabled(s, step) && RefreshesLag(s, step)
    ensures LagWithin(Apply(s, step), 0)
  {
    var before := if step.Replicate? then s.(applied := Replicated(s))
                  else BumpApplied(PushLog(s, step.payload), s.leaderId.value);
    RefreshedIsExact(before);
    WithinTransfers(RefreshLag(before), RecomputeCommitIndex(RefreshLag(before)), 0, 0);
  }

  lemma RegisterWithin(s: State, node: ClusterNode, order: seq<NodeId>, d: nat)
    requires LagWithin(s, d) && IsOrder(order, s.nodes.Keys + {node.nodeId})
    ensures LagWithin(DoRegister(s, node, order), if AllWho(Registered(s, node), HealthyReachable) != {} then 0 else d)
  {
    var s1 := Registered(s, node);
    var e := if AllWho(s1, HealthyReachable) != {} then 0 else d;
    WithinTransfers(s, s1, d, d);
    PlacedIsExact(s1, order);
    WithinTransfers(RebalanceReplicaSets(s1, order), DoRegister(s, node, order), e, e);
  }

  /** `t` is `u` with one more log entry, which at most the metadata leader has applied. */
  ghost predicate Pushed(u: State, t: State) {
    && t.shardMap == u.shardMap && |t.log| == |u.log| + 1
    && forall id :: AppliedOf(u.applied, id) <= AppliedOf(t.applied, id)
         && (Some(id) != u.leaderId ==> AppliedOf(t.applied, id) == AppliedOf(u.applied, id))
  }

  /** The state in which an election places replica sets. */
  function Seated(s: State, winner: NodeId): State {
    RefreshRoles(s.(epoch := NextEpoch(s.epoch), leaderId := Some(winner)))
  }

  lemma SeatedFrame(s: State, winner: NodeId)
    ensures var t := Seated(s, winner);
      && t.nodes.Keys == s.nodes.Keys && AllWho(t, HealthyReachable) == AllWho(s, HealthyReachable)
      && t.leaderId == Some(winner) && t.log == s.log && t.applied == s.applied && t.shardMap == s.shardMap
  {
    assert Seated(s, winner).nodes.Keys == s.nodes.Keys;
  }

  /** What an election leaves of the nodes. */
  lemma ElectNodes(s: State, winner: NodeId, order: seq<NodeId>)
    ensures var t, u := Elect(s, winner, order), Seated(s, winner);
      t.nodes == u.nodes && t.isolated == s.isolated && t.config == s.config && t.leaderId == Some(winner)
  {
  }

  lemma PushedNote(u: State, payload: LogPayload)
    requires LogOk(u)
    ensures Pushed(u, RecomputeCommitIndex(MarkLeaderApplied(PushLog(u, payload))))
  {
  }

  lemma ElectPushed(s: State, winner: NodeId, order: seq<NodeId>)
    requires Inv(s) && winner in s.nodes
    ensures LogOk(Seated(s, winner)) && Pushed(RebalanceReplicaSets(Seated(s, winner), order), Elect(s, winner, order))
  {
    NewEpochInv(s, Some(winner));
    RolesInv(s.(epoch := NextEpoch(s.epoch), leaderId := Some(winner)));
    PushedNote(RebalanceReplicaSets(Seated(s, winner), order), Noop);
  }

  lemma RebalancePushed(s: State, order: seq<NodeId>)
    requires Inv(s)
    ensures LogOk(Respread(s)) && Pushed(RebalanceReplicaSets(Respread(s), order), DoRebalance(s, order))
  {
    RespreadInv(s);
    PushedNote(RebalanceReplicaSets(Respread(s), order), RebalanceNote(s));
  }

  /** Placing and then pushing an entry. */
  lemma PlacedAndPushed(s: State, order: seq<NodeId>, t: State, d: nat)
    requires LagWithin(s, d) && IsOrder(order, s.nodes.Keys) && Pushed(RebalanceReplicaSets(s, order), t)
    ensures LagWithin(t, if AllWho(s, HealthyReachable) != {} then 1 else d + 1)
  {
    PlacedIsExact(s, order);
    var e := if AllWho(s, HealthyReachable) != {} then 0 else d;
    WithinTransfers(RebalanceReplicaSets(s, order), t, e, e + 1);
  }

  lemma ElectWithin(s: State, winner: NodeId, order: seq<NodeId>, d: nat)
    requires Inv(s) && winner in s.nodes && LagWithin(s, d) && IsOrder(order, s.nodes.Keys)
    ensures LagWithin(Elect(s, winner, order), if AllWho(s, HealthyReachable) != {} then 1 else d + 1)
  {
    SeatedFrame(s, winner);
    ElectPushed(s, winner, order);
    WithinTransfers(s, Seated(s, winner), d, d);
    PlacedAndPushed(Seated(s, winner), order, Elect(s, winner, order), d);
  }

  lemma RespreadLags(s: State)
    requires Inv(s)
    ensures var r := Respread(s);
      && r.nodes == s.nodes && AllWho(r, HealthyReachable) == AllWho(s, HealthyReachable)
      && r.log == s.log && r.applied == s.applied && SameLags(s, r)
  {
  }

  lemma RebalanceWithin(s: State, order: seq<NodeId>, d: nat)
    requires Inv(s) && LagWithin(s, d) && IsOrder(order, s.nodes.Keys)
    ensures LagWithin(DoRebalance(s, order), if AllWho(s, HealthyReachable) != {} then 1 else d + 1)
  {
    RespreadLags(s);
    RebalancePushed(s, order);
    WithinTransfers(s, Respread(s), d, d);
    PlacedAndPushed(Respread(s), order, DoRebalance(s, order), d);
  }

  lemma FailoverElectsIn(s: State, now: nat, order: seq<NodeId>)
    requires Inv(s) && IsOrder(order, s.nodes.Keys) && FailoverElects(UpdateLiveness(s, now), order)
    ensures var u, w := UpdateLiveness(s, now), FailoverWinner(UpdateLiveness(s, now), order).value;
      && Inv(u) && w in u.nodes && IsOrder(order, u.nodes.Keys)
      && u.log == s.log && u.applied == s.applied && u.shardMap == s.shardMap
      && SameProgress(Elect(u, w, order), DoCheckFailover(s, now, order))
  {
    LivenessInv(s, now);
    WinnerIsHealthyVoter(UpdateLiveness(s, now), order);
  }

  /** Two states with the same log, applied indexes and lags. */
  ghost predicate SameProgress(s: State, t: State) { t.log == s.log && t.applied == s.applied && SameLags(s, t) }

  lemma FailoverWithin(s: State, now: nat, order: seq<NodeId>, d: nat)
    requires Inv(s) && LagWithin(s, d) && IsOrder(order, s.nodes.Keys) && FailoverElects(UpdateLiveness(s, now), order)
    ensures LagWithin(DoCheckFailover(s, now, order),
                      if AllWho(UpdateLiveness(s, now), HealthyReachable) != {} then 1 else d + 1)
  {
    var u := UpdateLiveness(s, now);
    FailoverElectsIn(s, now, order);
    WithinTransfers(s, u, d, d);
    ElectWithin(u, FailoverWinner(u, order).value, order, d);
    var e := if AllWho(u, HealthyReachable) != {} then 1 else d + 1;
    WithinTransfers(Elect(u, FailoverWinner(u, order).value, order), DoCheckFailover(s, now, order), e, e);
  }

  /** Steps that touch no lag, no applied index and no log entry. */
  ghost predicate LeavesLags(s: State, step: Step) {
    !DisturbsLag(s, step) && !RefreshesLag(s, step) && !step.Register?
  }

  lemma QuietCheck(s: State, now: nat, order: seq<NodeId>)
    requires !FailoverElects(UpdateLiveness(s, now), order)
    ensures SameProgress(s, DoCheckFailover(s, now, order))
  {
  }

  lemma LagsAreLeft(s: State, step: Step)
    requires Inv(s) && Enabled(s, step) && LeavesLags(s, step)
    ensures SameProgress(s, Apply(s, step))
  {
    match step
    case CheckFailover(now, order) =>
      LivenessInv(s, now);
      WinnerIsHealthyVoter(UpdateLiveness(s, now), order);
      QuietCheck(s, now, order);
    case Beat(id, tick) => assert SameProgress(s, DoHeartbeat(s, id, tick));
    case Liveness(now) => assert SameProgress(s, UpdateLiveness(s, now));
    case Partition(isolated) => assert SameProgress(s, DoPartition(s, isolated));
    case _ =>
  }

  lemma DisturbedWithin(s: State, step: Step, d: nat)
    requires Inv(s) && Enabled(s, step) && LagWithin(s, d) && DisturbsLag(s, step)
    ensures LagWithin(Apply(s, step), if CanPlace(s, step) then 1 else d + 1)
  {
    match step
    case Campaign(candidate, order) => ElectWithin(s, candidate, order, d);
    case CheckFailover(now, order) => FailoverWithin(s, now, order, d);
    case Rebalance(order) => RebalanceWithin(s, order, d);
  }

  lemma StepWithin(s: State, step: Step, d: nat)
    requires Inv(s) && Enabled(s, step) && LagWithin(s, d)
    ensures LagWithin(Apply(s, step), DebtAfter(s, step, d))
  {
    if RefreshesLag(s, step) {
      RefreshWithin(s, step);
    } else if step.Register? {
      RegisterWithin(s, step.node, step.order, d);
    } else if DisturbsLag(s, step) {
      DisturbedWithin(s, step, d);
    } else {
      LagsAreLeft(s, step);
      WithinTransfers(s, Apply(s, step), d, d);
    }
  }

  lemma BootLagExact(c: Config)
    ensures LagWithin(Boot(c), 0)
  {
    var n, slots := BootShardCount(c), BootSlotCount(c);
    EvenPartitioned(n, slots);
    BiasPartitioned(EvenAssignments(n, slots), c.initialSlotBias, slots);
  }

  /** In every reachable state recorded lags fall short of the true ones by at most the debt of the run. */
  lemma {:induction false} DebtBoundsLag(c: Config, steps: seq<Step>)
    requires Legal(c, steps)
    ensures LagWithin(Exec(c, steps), Debt(c, steps))
    decreases |steps|
  {
    if steps == [] {
      BootLagExact(c);
    } else {
      var n := |steps| - 1;
      ReachableInv(c, steps[..n]);
      DebtBoundsLag(c, steps[..n]);
      StepWithin(Exec(c, steps[..n]), steps[n], Debt(c, steps[..n]));
    }
  }

  /** No election and no rebalance since the last refresh (or since boot). */
  ghost predicate LagFresh(c: Config, steps: seq<Step>)
    requires Legal(c, steps)
    decreases |steps|
  {
    steps == [] ||
    (var n := |steps| - 1;
     var s := Exec(c, steps[..n]);
     !DisturbsLag(s, steps[n]) && (RefreshesLag(s, steps[n]) || LagFresh(c, steps[..n])))
  }

  lemma {:induction false} FreshRunsHaveNoDebt(c: Config, steps: seq<Step>)
    requires Legal(c, steps) && LagFresh(c, steps)
    ensures Debt(c, steps) == 0
    decreases |steps|
  {
    if steps != [] && !RefreshesLag(Exec(c, steps[..|steps| - 1]), steps[|steps| - 1]) {
      FreshRunsHaveNoDebt(c, steps[..|steps| - 1]);
    }
  }

  // ---------- Eventual reads ----------

  /** The route of an eventual read is served by a follower of the key's shard. */
  ghost predicate FollowerRoute(s: State, key: Bytes, session: Option<string>) {
    var r := RouteRead(s, key, Eventual, session);
    r.Ok? && !r.value.servedByLeader
  }

  lemma FollowerRouteTarget(s: State, key: Bytes, session: Option<string>)
    requires FollowerRoute(s, key, session)
    ensures var rs := ShardForKey(s.shardMap, key).value.replicaSet;
      var target := RouteRead(s, key, Eventual, session).value.targetNode;
      ShardForKey(s.shardMap, key).value in s.shardMap.assignments
        && target in rs.followerIds && EventualCandidate(s, rs, target)
  {
    var rs := ShardForKey(s.shardMap, key).value.replicaSet;
    FilterIn(rs.followerIds, Eligible(s, rs));
    var eligible := Filter(rs.followerIds, Eligible(s, rs));
    assert eligible[0] in eligible;
  }

  /**
   * Staleness in every reachable state. A follower chosen for an eventual read is healthy, reachable and at most
   * `maxEventualLag` and the debt of the run behind the log. (`|log|` is a 64-bit count in the implementation.)
   */
  lemma EventualReadsAreBounded(c: Config, steps: seq<Step>, key: Bytes, session: Option<string>)
    requires Legal(c, steps) && |Exec(c, steps).log| <= U64_MAX && FollowerRoute(Exec(c, steps), key, session)
    ensures var s := Exec(c, steps);
      var target := RouteRead(s, key, Eventual, session).value.targetNode;
      && Is(s, HealthyReachable, target)
      && |s.log| <= AppliedOf(s.applied, target) + s.config.maxEventualLag + Debt(c, steps)
  {
    DebtBoundsLag(c, steps);
    var s := Exec(c, steps);
    FollowerRouteTarget(s, key, session);
    var a := ShardForKey(s.shardMap, key).value;
    var target := RouteRead(s, key, Eventual, session).value.targetNode;
    LagInIsAnEntry(a.replicaSet.replicaLag, target);
    var i :| 0 <= i < |s.shardMap.assignments| && s.shardMap.assignments[i] == a;
    assert CoversLags(s, s.shardMap.assignments[i].replicaSet.replicaLag, Debt(c, steps));
  }

  // ---------- After an election or a rebalance ----------

  /** Every recorded lag is exactly one less than the true one. */
  ghost predicate OffByOne(s: State) {
    forall i :: 0 <= i < |s.shardMap.assignments| ==>
      OneShort(|s.log|, s.applied, s.shardMap.assignments[i].replicaSet.replicaLag)
  }

  ghost predicate OneShort(length: nat, applied: map<NodeId, nat>, lags: seq<(NodeId, nat)>) {
    forall j :: 0 <= j < |lags| ==> length == AppliedOf(applied, lags[j].0) + lags[j].1 + 1
  }

  /** Every follower has a recorded lag. */
  ghost predicate AllRecorded(s: State) {
    forall i :: 0 <= i < |s.shardMap.assignments| ==> Recorded(s.shardMap.assignments[i].replicaSet)
  }

  ghost predicate Recorded(rs: ReplicaSet) { forall f :: f in rs.followerIds ==> rs.LagOf(f).Some? }

  lemma PlacedRecorded(s: State, healthy: seq<NodeId>, i: nat)
    requires healthy != [] && i < |s.shardMap.assignments|
    ensures Recorded(PlacedReplicaSet(s, healthy, i))
  {
    var rs := PlacedReplicaSet(s, healthy, i);
    forall f | f in rs.followerIds ensures rs.LagOf(f).Some? {
      LagInIsAnEntry(rs.replicaLag, f);
      var j :| 0 <= j < |rs.followerIds| && rs.followerIds[j] == f;
      assert rs.replicaLag[j].0 == f;
    }
  }

  /** Recorded lags are exact before the push, and the metadata leader follows nobody. */
  lemma PlacedShort(s: State, healthy: seq<NodeId>, i: nat, applied: map<NodeId, nat>)
    requires LogOk(s) && healthy != [] && i < |s.shardMap.assignments|
    requires forall f :: Some(f) != s.leaderId ==> AppliedOf(applied, f) == AppliedOf(s.applied, f)
    ensures OneShort(|s.log| + 1, applied, PlacedReplicaSet(s, healthy, i).replicaLag)
  {
    var followers := PlacedReplicaSet(s, healthy, i).followerIds;
    FilterIn(healthy, Except(Primary(s, healthy, i)));
    forall j | 0 <= j < |followers| ensures Some(followers[j]) != s.leaderId { assert followers[j] in followers; }
  }

  /** Placement comes before the push, so each recorded lag is one short after it. */
  lemma PlacedThenPushed(s: State, order: seq<NodeId>, t: State)
    requires LogOk(s) && IsOrder(order, s.nodes.Keys) && AllWho(s, HealthyReachable) != {}
    requires Pushed(RebalanceReplicaSets(s, order), t)
    ensures OffByOne(t) && AllRecorded(t)
  {
    var healthy := Filter(order, Among(s, HealthyReachable));
    SelectedIs(s, HealthyReachable, order);
    forall i | 0 <= i < |t.shardMap.assignments|
      ensures OneShort(|t.log|, t.applied, t.shardMap.assignments[i].replicaSet.replicaLag)
      ensures Recorded(t.shardMap.assignments[i].replicaSet)
    {
      PlacedShort(s, healthy, i, t.applied);
      PlacedRecorded(s, healthy, i);
      assert t.shardMap.assignments[i].replicaSet == PlacedReplicaSet(s, healthy, i);
    }
  }

  lemma SameOffByOne(s: State, t: State)
    requires OffByOne(s) && SameProgress(s, t)
    ensures OffByOne(t)
  {
    forall i | 0 <= i < |t.shardMap.assignments|
      ensures OneShort(|t.log|, t.applied, t.shardMap.assignments[i].replicaSet.replicaLag)
    {
      assert OneShort(|s.log|, s.applied, s.shardMap.assignments[i].replicaSet.replicaLag);
    }
  }

  lemma ElectionOffByOne(s: State, winner: NodeId, order: seq<NodeId>)
    requires Inv(s) && winner in s.nodes && IsOrder(order, s.nodes.Keys) && AllWho(s, HealthyReachable) != {}
    ensures OffByOne(Elect(s, winner, order)) && AllRecorded(Elect(s, winner, order))
  {
    SeatedFrame(s, winner);
    ElectPushed(s, winner, order);
    PlacedThenPushed(Seated(s, winner), order, Elect(s, winner, order));
  }

  lemma RebalanceOffByOne(s: State, order: seq<NodeId>)
    requires Inv(s) && IsOrder(order, s.nodes.Keys) && AllWho(s, HealthyReachable) != {}
    ensures OffByOne(DoRebalance(s, order)) && AllRecorded(DoRebalance(s, order))
  {
    RespreadLags(s);
    RebalancePushed(s, order);
    PlacedThenPushed(Respread(s), order, DoRebalance(s, order));
  }

  /** An election or a rebalance that placed replica sets, and nothing since that touches lags. */
  ghost predicate JustPlaced(c: Config, steps: seq<Step>)
    requires Legal(c, steps)
    decreases |steps|
  {
    steps != [] &&
    (var n := |steps| - 1;
     var s := Exec(c, steps[..n]);
     || (DisturbsLag(s, steps[n]) && CanPlace(s, steps[n]))
     || (LeavesLags(s, steps[n]) && JustPlaced(c, steps[..n])))
  }

  lemma DisturbedOffByOne(s: State, step: Step)
    requires Inv(s) && Enabled(s, step) && DisturbsLag(s, step) && CanPlace(s, step)
    ensures OffByOne(Apply(s, step))
  {
    match step
    case Rebalance(order) => RebalanceOffByOne(s, order);
    case Campaign(candidate, order) => ElectionOffByOne(s, candidate, order);
    case CheckFailover(now, order) =>
      var u := UpdateLiveness(s, now);
      FailoverElectsIn(s, now, order);
      ElectionOffByOne(u, FailoverWinner(u, order).value, order);
      SameOffByOne(Elect(u, FailoverWinner(u, order).value, order), DoCheckFailover(s, now, order));
  }

  lemma {:induction false} PlacedRunsAreShort(c: Config, steps: seq<Step>)
    requires Legal(c, steps) && JustPlaced(c, steps)
    ensures OffByOne(Exec(c, steps))
    decreases |steps|
  {
    var n := |steps| - 1;
    var s := Exec(c, steps[..n]);
    ReachableInv(c, steps[..n]);
    if DisturbsLag(s, steps[n]) {
      DisturbedOffByOne(s, steps[n]);
    } else {
      PlacedRunsAreShort(c, steps[..n]);
      LagsAreLeft(s, steps[n]);
      SameOffByOne(s, Exec(c, steps));
    }
  }

  /**
   * How an eventual read from a follower fares when every recorded lag is one short. A follower without a recorded lag
   * is read only if the limit allows any lag at all.
   */
  ghost predicate ShortRead(t: State, rs: ReplicaSet, target: NodeId) {
    var behind := |t.log| - AppliedOf(t.applied, target);
    match rs.LagOf(target)
    case Some(lag) =>
      && (behind <= t.config.maxEventualLag <==> lag < t.config.maxEventualLag)
      && behind <= t.config.maxEventualLag + 1
    case None => t.config.maxEventualLag >= U64_MAX
  }

  lemma ShortReads(t: State, key: Bytes, session: Option<string>)
    requires OffByOne(t) && FollowerRoute(t, key, session)
    ensures ShortRead(t, ShardForKey(t.shardMap, key).value.replicaSet,
                      RouteRead(t, key, Eventual, session).value.targetNode)
  {
    FollowerRouteTarget(t, key, session);
    var a := ShardForKey(t.shardMap, key).value;
    var i :| 0 <= i < |t.shardMap.assignments| && t.shardMap.assignments[i] == a;
    LagInIsAnEntry(a.replicaSet.replicaLag, RouteRead(t, key, Eventual, session).value.targetNode);
    assert OneShort(|t.log|, t.applied, t.shardMap.assignments[i].replicaSet.replicaLag);
  }

  /**
   * After a won election or a rebalance, and until lags, applied indexes or the log change again, an eventual read that
   * goes to a follower keeps its bound exactly when that follower's recorded lag is strictly below `maxEventualLag`; it
   * is never more than one entry over.
   */
  lemma EventualReadAfterPlacement(c: Config, steps: seq<Step>, key: Bytes, session: Option<string>)
    requires Legal(c, steps) && JustPlaced(c, steps) && FollowerRoute(Exec(c, steps), key, session)
    ensures var t := Exec(c, steps);
      ShortRead(t, ShardForKey(t.shardMap, key).value.replicaSet, RouteRead(t, key, Eventual, session).value.targetNode)
  {
    PlacedRunsAreShort(c, steps);
    ShortReads(Exec(c, steps), key, session);
  }

  /** With no healthy reachable node an election leaves every recorded lag as it was while the log grows. */
  lemma UnhealthyElectionFreezesLag(s: State, winner: NodeId, order: seq<NodeId>)
    requires IsOrder(order, s.nodes.Keys) && AllWho(s, HealthyReachable) == {}
    ensures var t := Elect(s, winner, order); t.shardMap == s.shardMap && |t.log| == |s.log| + 1
  {
    SeatedFrame(s, winner);
    PlacedIsExact(Seated(s, winner), order);
  }
}
