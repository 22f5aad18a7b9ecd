/** Sticky sessions, and writes after a failover, over whole runs. */
module ClusterRouting {
  import opened Prelude
  import opened ClusterDomain
  import opened ClusterSpec
  import opened ClusterInvariants
  import opened ClusterElections
  import Shards = ClusterShards

  lemma PartitionRoutesTo(m: ShardMap, key: Bytes) returns (i: nat)
    requires Partitioned(m)
    ensures i < |m.assignments| && ShardForKey(m, key) == Some(m.assignments[i])
  {
    i := Shards.PartitionRoutes(m, key);
  }

  // ---------- Sessions ----------

  ghost predicate SessionKept(s: State, s': State, session: string) {
    && (session in s.sessions <==> session in s'.sessions)
    && (session in s.sessions ==> s'.sessions[session] == s.sessions[session])
  }

  lemma ElectKeepsSessions(s: State, winner: NodeId, order: seq<NodeId>, session: string)
    ensures SessionKept(s, Elect(s, winner, order), session)
  {
  }

  lemma FailoverKeepsSessions(s: State, now: nat, order: seq<NodeId>, session: string)
    ensures SessionKept(s, DoCheckFailover(s, now, order), session)
  {
    var u := UpdateLiveness(s, now);
    if FailoverElects(u, order) { ElectKeepsSessions(u, FailoverWinner(u, order).value, order, session); }
  }

  lemma RebalanceKeepsSessions(s: State, order: seq<NodeId>, session: string)
    requires |s.shardMap.assignments| <= s.shardMap.slotCount
    ensures SessionKept(s, DoRebalance(s, order), session)
  {
    RespreadFrame(s, order);
    NotedFrame(RebalanceReplicaSets(Respread(s), order), RebalanceNote(s));
  }

  lemma RegisterKeepsSessions(s: State, node: ClusterNode, order: seq<NodeId>, session: string)
    ensures SessionKept(s, DoRegister(s, node, order), session)
  {
  }

  lemma StepKeepsSession(s: State, step: Step, session: string)
    requires Enabled(s, step) && !(step.ReadSession? && step.session == session)
    ensures SessionKept(s, Apply(s, step), session)
  {
    match step
    case Register(node, order) => RegisterKeepsSessions(s, node, order, session);
    case Campaign(candidate, order) => ElectKeepsSessions(s, candidate, order, session);
    case CheckFailover(now, order) => FailoverKeepsSessions(s, now, order, session);
    case Rebalance(order) => RebalanceKeepsSessions(s, order, session);
    case _ =>
  }

  /** `more` continues the run `steps` without another read of this session. */
  ghost predicate NoReadOf(session: string, more: seq<Step>) {
    forall k :: 0 <= k < |more| ==> !(more[k].ReadSession? && more[k].session == session)
  }

  lemma LastStep(c: Config, run: seq<Step>, before: seq<Step>, step: Step)
    requires Legal(c, run) && run == before + [step]
    ensures Legal(c, before) && Enabled(Exec(c, before), step) && Exec(c, run) == Apply(Exec(c, before), step)
  {
    assert run[..|run| - 1] == before && run[|run| - 1] == step;
  }

  lemma LegalPrefix(c: Config, steps: seq<Step>, more: seq<Step>)
    requires more != [] && Legal(c, steps + more)
    ensures Legal(c, steps + more[..|more| - 1]) && Enabled(Exec(c, steps + more[..|more| - 1]), more[|more| - 1])
    ensures Exec(c, steps + more) == Apply(Exec(c, steps + more[..|more| - 1]), more[|more| - 1])
  {
    var n := |more| - 1;
    assert steps + more == (steps + more[..n]) + [more[n]];
    LastStep(c, steps + more, steps + more[..n], more[n]);
  }

  lemma {:induction false} SessionStaysPinned(c: Config, steps: seq<Step>, more: seq<Step>, session: string)
    requires Legal(c, steps) && Legal(c, steps + more) && NoReadOf(session, more)
    requires session in Exec(c, steps).sessions
    ensures var s, s' := Exec(c, steps), Exec(c, steps + more);
      && session in s'.sessions && s'.sessions[session] == s.sessions[session]
      && forall id :: id in s.applied ==> id in s'.applied && s.applied[id] <= s'.applied[id]
    decreases |more|
  {
    if more == [] {
      assert steps + more == steps;
    } else {
      var n := |more| - 1;
      LegalPrefix(c, steps, more);
      SessionStaysPinned(c, steps, more[..n], session);
      var s1 := Exec(c, steps + more[..n]);
      ReachableInv(c, steps + more[..n]);
      StepKeepsSession(s1, more[n], session);
      StepProgress(s1, more[n]);
    }
  }

  /** A session that was never read is not pinned. */
  lemma {:induction false} NoSessionsYet(c: Config, steps: seq<Step>, session: string)
    requires Legal(c, steps) && forall k :: 0 <= k < |steps| ==> !(steps[k].ReadSession? && steps[k].session == session)
    ensures session !in Exec(c, steps).sessions
    decreases |steps|
  {
    if steps != [] {
      var n := |steps| - 1;
      NoSessionsYet(c, steps[..n], session);
      ReachableInv(c, steps[..n]);
      StepKeepsSession(Exec(c, steps[..n]), steps[n], session);
    }
  }

  /** A session read of `key` in `s`. */
  function SessionTarget(s: State, key: Bytes, session: string): Option<NodeId> {
    var r := RouteRead(s, key, Session, Some(session));
    if r.Ok? then Some(r.value.targetNode) else None
  }

  /** `node` may keep serving the session on the key's shard. */
  ghost predicate StillMember(s: State, key: Bytes, node: NodeId) {
    var shard := ShardForKey(s.shardMap, key);
    && shard.Some? && node in s.nodes && s.nodes[node].status.Healthy?
    && (shard.value.replicaSet.leaderId == Some(node) || node in shard.value.replicaSet.followerIds)
  }

  lemma PinnedRead(s: State, key: Bytes, session: string)
    requires session in s.sessions && SessionTarget(s, key, session).Some?
    ensures SessionTarget(s, key, session) ==
      if StillMember(s, key, s.sessions[session]) then Some(s.sessions[session])
      else ShardForKey(s.shardMap, key).value.replicaSet.leaderId
  {
  }

  lemma ReadPins(c: Config, steps: seq<Step>, key: Bytes, session: string)
    requires Legal(c, steps) && SessionTarget(Exec(c, steps), key, session).Some?
    ensures var after := steps + [ReadSession(key, session, Session)];
      && Legal(c, after)
      && session in Exec(c, after).sessions
      && Some(Exec(c, after).sessions[session]) == SessionTarget(Exec(c, steps), key, session)
      && Exec(c, after).applied == Exec(c, steps).applied
  {
    ExecSnoc(c, steps, ReadSession(key, session, Session));
  }

  /**
   * Sticky sessions. After a session read, and any steps that are not reads of that session, a second session read goes
   * to the same node, which has applied at least as much as before, as long as that node is healthy and still a member
   * of the key's shard. Otherwise it goes to the shard's leader, which need not have applied as much.
   */
  lemma SessionReadsAreSticky(
    c: Config, steps: seq<Step>, key: Bytes, session: string, more: seq<Step>, key2: Bytes)
    requires Legal(c, steps) && SessionTarget(Exec(c, steps), key, session).Some?
    requires var run := steps + [ReadSession(key, session, Session)] + more;
      Legal(c, run) && NoReadOf(session, more) && SessionTarget(Exec(c, run), key2, session).Some?
    ensures var s, s' := Exec(c, steps), Exec(c, steps + [ReadSession(key, session, Session)] + more);
      var first := SessionTarget(s, key, session).value;
      && SessionTarget(s', key2, session) == (if StillMember(s', key2, first) then Some(first)
                                              else ShardForKey(s'.shardMap, key2).value.replicaSet.leaderId)
      && AppliedOf(s.applied, first) <= AppliedOf(s'.applied, first)
  {
    ReadPins(c, steps, key, session);
    var run := steps + [ReadSession(key, session, Session)];
    SessionStaysPinned(c, run, more, session);
    PinnedRead(Exec(c, run + more), key2, session);
  }

  /**
   * A session goes back, over any steps in between, exactly when its node is no longer healthy or no longer a member of
   * the key's shard and the shard's leader has applied less than the first read showed.
   */
  lemma SessionGoesBackIff(
    c: Config, steps: seq<Step>, key: Bytes, session: string, more: seq<Step>, key2: Bytes)
    requires Legal(c, steps) && SessionTarget(Exec(c, steps), key, session).Some?
    requires var run := steps + [ReadSession(key, session, Session)] + more;
      Legal(c, run) && NoReadOf(session, more) && SessionTarget(Exec(c, run), key2, session).Some?
    ensures var s, s' := Exec(c, steps), Exec(c, steps + [ReadSession(key, session, Session)] + more);
      var first := SessionTarget(s, key, session).value;
      var leader := ShardForKey(s'.shardMap, key2).value.replicaSet.leaderId;
      AppliedOf(s'.applied, SessionTarget(s', key2, session).value) < AppliedOf(s.applied, first) <==>
        !StillMember(s', key2, first) && AppliedOf(s'.applied, leader.value) < AppliedOf(s.applied, first)
  {
    SessionReadsAreSticky(c, steps, key, session, more, key2);
  }

  // ---------- When a session moves ----------

  /** No partition moves a session read: it may go to a node that cannot be reached. */
  lemma PartitionsDoNotMoveSessions(s: State, isolated: seq<NodeId>, key: Bytes, session: string)
    ensures SessionTarget(DoPartition(s, isolated), key, session) == SessionTarget(s, key, session)
  {
    var t := DoPartition(s, isolated);
    assert t.shardMap == s.shardMap && t.sessions == s.sessions && t.nodes == s.nodes;
  }

  lemma LedFallback(t: State, leader: NodeId, key: Bytes, session: string)
    requires Partitioned(t.shardMap) && LedBy(t, leader) && session in t.sessions
    ensures SessionTarget(t, key, session) ==
      Some(if StillMember(t, key, t.sessions[session]) then t.sessions[session] else leader)
  {
    var i := PartitionRoutesTo(t.shardMap, key);
    PinnedRead(t, key, session);
  }

  /** When a healthy reachable node wins an election, a session that moves loses nothing: the winner has everything. */
  lemma ElectionFallback(s: State, winner: NodeId, order: seq<NodeId>, key: Bytes, session: string)
    requires Inv(s) && Is(s, HealthyReachable, winner) && IsOrder(order, s.nodes.Keys) && session in s.sessions
    ensures var t, pinned := Elect(s, winner, order), s.sessions[session];
      SessionTarget(t, key, session) == Some(if StillMember(t, key, pinned) then pinned else winner)
    ensures forall id :: AppliedOf(s.applied, id) <= AppliedOf(Elect(s, winner, order).applied, winner)
  {
    ElectInv(s, winner, order);
    ElectedLeadsEverything(s, winner, order);
    ElectKeepsSessions(s, winner, order, session);
    WinnerHasAll(s, winner, order);
    LedFallback(Elect(s, winner, order), winner, key, session);
  }

  lemma WinnerHasAll(s: State, winner: NodeId, order: seq<NodeId>)
    requires Inv(s) && winner in s.nodes
    ensures AppliedOf(Elect(s, winner, order).applied, winner) == |s.log| + 1
  {
    InstalledFrame(s, winner, order);
  }

  /** A second read, in `t`, shows an older state than the node pinned in `s` had applied. */
  ghost predicate GoesBack(s: State, t: State, key: Bytes, session: string) {
    && session in s.sessions && SessionTarget(t, key, session).Some?
    && AppliedOf(t.applied, SessionTarget(t, key, session).value) < AppliedOf(s.applied, s.sessions[session])
  }

  /**
   * When a shard leader is replaced without a metadata election, a session whose node is no longer healthy goes to the
   * successor, chosen without a look at applied indexes: it goes back exactly when the successor has applied less.
   */
  lemma PromotionFallback(s: State, now: nat, order: seq<NodeId>, key: Bytes, session: string)
    requires Inv(s) && IsOrder(order, s.nodes.Keys)
    requires ShardForKey(s.shardMap, key).Some? && session in s.sessions && s.sessions[session] in s.nodes
    requires var u := UpdateLiveness(s, now);
      && !Down(u, u.leaderId) && NeedsPromotion(u, ShardForKey(s.shardMap, key).value, order)
      && !u.nodes[s.sessions[session]].status.Healthy?
    ensures var successor := Successor(UpdateLiveness(s, now), ShardForKey(s.shardMap, key).value, order).value;
      && SessionTarget(DoCheckFailover(s, now, order), key, session) == Some(successor)
      && (GoesBack(s, DoCheckFailover(s, now, order), key, session) <==>
           AppliedOf(s.applied, successor) < AppliedOf(s.applied, s.sessions[session]))
  {
    var t := DoCheckFailover(s, now, order);
    CheckedState(s, now, order);
    PromotedShard(s, now, order, key);
    PinnedRead(t, key, session);
  }

  lemma PromotedKeepsSlots(u: State, a: ShardAssignment, order: seq<NodeId>)
    ensures PromotedIfNeeded(u, a, order).slots == a.slots
  {
  }

  /** The key's shard after the check is its shard before, promoted if need be. */
  lemma PromotedShard(s: State, now: nat, order: seq<NodeId>, key: Bytes)
    requires Inv(s) && IsOrder(order, s.nodes.Keys)
    requires !Down(UpdateLiveness(s, now), UpdateLiveness(s, now).leaderId) && ShardForKey(s.shardMap, key).Some?
    ensures ShardForKey(DoCheckFailover(s, now, order).shardMap, key) ==
      Some(PromotedIfNeeded(UpdateLiveness(s, now), ShardForKey(s.shardMap, key).value, order))
  {
    CheckedState(s, now, order);
    CheckFailoverOk(s, now, order);
    PromotedIn(s.shardMap, DoCheckFailover(s, now, order).shardMap, UpdateLiveness(s, now), order, key);
  }

  lemma PromotedIn(m: ShardMap, m': ShardMap, u: State, order: seq<NodeId>, key: Bytes)
    requires Partitioned(m) && Partitioned(m') && m.slotCount == m'.slotCount
    requires |m'.assignments| == |m.assignments|
    requires forall i :: 0 <= i < |m.assignments| ==> m'.assignments[i] == PromotedIfNeeded(u, m.assignments[i], order)
    requires ShardForKey(m, key).Some?
    ensures ShardForKey(m', key) == Some(PromotedIfNeeded(u, ShardForKey(m, key).value, order))
  {
    var i := PartitionRoutesTo(m, key);
    var j := PartitionRoutesTo(m', key);
    forall k | 0 <= k < |m.assignments| ensures m'.assignments[k].slots == m.assignments[k].slots {
      PromotedKeepsSlots(u, m.assignments[k], order);
    }
    SameSlot(m, m', key, i, j);
  }

  lemma CheckedState(s: State, now: nat, order: seq<NodeId>)
    requires !Down(UpdateLiveness(s, now), UpdateLiveness(s, now).leaderId)
    ensures var u, t := UpdateLiveness(s, now), DoCheckFailover(s, now, order);
      && t.nodes == u.nodes && t.applied == s.applied && t.sessions == s.sessions
      && t.shardMap == s.shardMap.(assignments := PromotedAssignments(u, order))
  {
  }

  /** Maps with the same ranges route a key to the same position. */
  lemma SameSlot(m: ShardMap, m': ShardMap, key: Bytes, i: nat, j: nat)
    requires Partitioned(m) && Partitioned(m') && m.slotCount == m'.slotCount
    requires |m.assignments| == |m'.assignments|
    requires forall k :: 0 <= k < |m.assignments| ==> m'.assignments[k].slots == m.assignments[k].slots
    requires i < |m.assignments| && ShardForKey(m, key) == Some(m.assignments[i])
    requires j < |m'.assignments| && ShardForKey(m', key) == Some(m'.assignments[j])
    ensures i == j
  {
    var slot := HashSlot(key, Max(m.slotCount, 1)) % Max(m.slotCount, 1);
    assert m.assignments[i].slots.Contains(slot) && m.assignments[j].slots.Contains(slot);
    if i < j { EndsAscend(m, i, j); }
    if j < i { EndsAscend(m, j, i); }
  }

  // ---------- Writes ----------

  lemma LedShardsTakeWrites(s: State, key: Bytes)
    requires Partitioned(s.shardMap) && ShardsLed(s)
    ensures RouteWrite(s, key).Ok? && !Down(s, Some(RouteWrite(s, key).value.leaderNode))
  {
    var i := PartitionRoutesTo(s.shardMap, key);
  }

  /**
   * A failover check that is not stuck below quorum, on a cluster with any healthy reachable node left, makes every
   * key writable: its shard has a leader that is registered, not dead and reachable.
   */
  lemma FailoverRestoresWrites(s: State, now: nat, order: seq<NodeId>, key: Bytes)
    requires Inv(s) && IsOrder(order, s.nodes.Keys)
    requires var u := UpdateLiveness(s, now); !Down(u, u.leaderId) || FailoverQuorum(u)
    requires AllWho(DoCheckFailover(s, now, order), HealthyReachable) != {}
    ensures var r := RouteWrite(DoCheckFailover(s, now, order), key);
      r.Ok? && !Down(DoCheckFailover(s, now, order), Some(r.value.leaderNode))
  {
    FailoverOutcome(s, now, order);
    CheckFailoverOk(s, now, order);
    LedShardsTakeWrites(DoCheckFailover(s, now, order), key);
  }
}
