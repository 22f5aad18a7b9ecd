/** Boot, placement, rebalancing and failover, shard by shard. */
module ClusterPlaceFacts {
  import opened Prelude
  import opened ClusterDomain
  import opened ClusterSpec
  import opened ClusterInvariants
  import opened ClusterElections
  import opened ClusterReads
  import opened ClusterFacts
  import opened ClusterRouteFacts

  // ---------- Boot ----------

  lemma BootFacts(c: Config)
    ensures var s := Boot(c);
      && s.config == c && s.epoch == 0 && s.leaderId == None && s.nodes == map[] && s.applied == map[]
      && s.log == [] && s.commitIndex == 0 && s.sessions == map[] && s.isolated == [] && s.failoverEvents == []
      && s.rebalanceHistory == [] && s.nowTick == 0 && s.shardMap.epoch == 0
      && |s.shardMap.assignments| == (if c.shardCount == 0 then 1 else c.shardCount)
      && s.shardMap.slotCount == if c.slotCount < |s.shardMap.assignments| then |s.shardMap.assignments| else c.slotCount
  {
  }

  ghost function Width(r: SlotRange): int { r.end - r.start + 1 }

  /** Even ranges: every shard but the last has the rounded-down share, and the last has what is left. */
  lemma EvenWidths(n: nat, slots: nat, i: nat)
    requires i < n <= slots
    ensures var r, per := EvenRange(i, n, slots), slots / n;
      && r.start == i * per
      && (i + 1 < n ==> Width(r) == per)
      && (i + 1 == n ==> r.end == slots - 1)
  {
    PerPositive(n, slots);
    Scale(i, slots / n);
  }

  /** The boot skew moves every inner boundary right by the bias, or by as much as leaves the last shard one slot. */
  lemma BiasMoves(a: seq<ShardAssignment>, bias: nat, i: nat)
    requires i < |a| && a[|a| - 1].slots.start <= a[|a| - 1].slots.end <= U32_MAX
    requires forall k :: 0 <= k < |a| - 1 ==> a[k].slots.start <= a[k].slots.end < a[|a| - 1].slots.start
    ensures var last := a[|a| - 1].slots;
      var shift := if |a| < 2 then 0 else if bias < last.end - last.start then bias else last.end - last.start;
      var r := Bias(a, bias)[i];
      && r.slots.start == a[i].slots.start + (if i == 0 then 0 else shift)
      && r.slots.end == a[i].slots.end + (if i + 1 == |a| then 0 else shift)
      && r == a[i].(slots := r.slots)
  {
  }

  // ---------- Placement ----------

  /** The nodes that can be placed, in table order. */
  ghost function UpList(s: State, order: seq<NodeId>): seq<NodeId> { Filter(order, Among(s, HealthyReachable)) }

  lemma UpListIs(s: State, order: seq<NodeId>)
    requires IsOrder(order, s.nodes.Keys)
    ensures NoDup(UpList(s, order)) && forall id :: id in UpList(s, order) <==> Up(s, id)
  {
    WhoCounts(s);
    SelectedIs(s, HealthyReachable, order);
  }

  /** Who leads the shard at position `i`: the metadata leader if it is up, else the nodes that are up take turns. */
  ghost function LeaderFor(s: State, up: seq<NodeId>, i: nat): NodeId
    requires up != []
  {
    if s.leaderId.Some? && Up(s, s.leaderId.value) then s.leaderId.value else up[i % |up|]
  }

  /** What placement makes of one shard: its leader, everyone else who is up as followers in order, and their true lags. */
  ghost predicate PlacedShard(s: State, up: seq<NodeId>, i: nat, a: ShardAssignment, b: ShardAssignment)
    requires up != []
  {
    && b.shardId == a.shardId && b.slots == a.slots && b.replicaSet.shardId == a.shardId
    && b.replicaSet.leaderId == Some(LeaderFor(s, up, i)) && b.replicaSet.learnerIds == []
    && b.replicaSet.lastSnapshot == a.replicaSet.lastSnapshot
    && b.replicaSet.followerIds == Filter(up, id => id != LeaderFor(s, up, i))
    && |b.replicaSet.replicaLag| == |b.replicaSet.followerIds|
    && forall j :: 0 <= j < |b.replicaSet.followerIds| ==>
         var f := b.replicaSet.followerIds[j];
         b.replicaSet.replicaLag[j].0 == f && b.replicaSet.replicaLag[j].1 + AppliedOf(s.applied, f) == |s.log|
  }

  lemma {:induction false} SameFilter<T>(xs: seq<T>, p: T -> bool, q: T -> bool)
    requires forall x :: x in xs ==> (p(x) <==> q(x))
    ensures Filter(xs, p) == Filter(xs, q)
  {
    if xs != [] { SameFilter(xs[..|xs| - 1], p, q); }
  }

  lemma PlacementFacts(s: State, order: seq<NodeId>, i: nat)
    requires LogOk(s) && IsOrder(order, s.nodes.Keys) && i < |s.shardMap.assignments|
    ensures var t, up := RebalanceReplicaSets(s, order), UpList(s, order);
      if up == [] then t == s
      else
        && |t.shardMap.assignments| == |s.shardMap.assignments| && t.shardMap.epoch == s.epoch
        && t == s.(shardMap := t.shardMap) && t.shardMap.slotCount == s.shardMap.slotCount
        && PlacedShard(s, up, i, s.shardMap.assignments[i], t.shardMap.assignments[i])
  {
    var up := UpList(s, order);
    UpListIs(s, order);
    if up != [] {
      SameFilter(up, Except(LeaderFor(s, up, i)), id => id != LeaderFor(s, up, i));
    }
  }

  /** A registration places among the nodes with the new one, an election under its winner, a rebalance on the new ranges. */
  lemma RegisterPlaces(s: State, order: seq<NodeId>, node: ClusterNode)
    ensures DoRegister(s, node, order).shardMap == RebalanceReplicaSets(Registered(s, node), order).shardMap
  {
  }

  lemma ElectPlaces(s: State, order: seq<NodeId>, winner: NodeId)
    ensures Elect(s, winner, order).shardMap == RebalanceReplicaSets(Seated(s, winner), order).shardMap
  {
  }

  lemma RebalancePlaces(s: State, order: seq<NodeId>)
    requires |s.shardMap.assignments| <= s.shardMap.slotCount && s.shardMap.assignments != []
    ensures DoRebalance(s, order).shardMap == RebalanceReplicaSets(Respread(s), order).shardMap
  {
  }

  // ---------- Rebalance ----------

  /** Even ranges under the next epoch, one log entry about it that the leader has applied, and the plans on record. */
  lemma RebalanceFacts(s: State, order: seq<NodeId>)
    requires Inv(s)
    ensures var t := DoRebalance(s, order);
      && t.epoch == (if s.epoch < 0xFFFF_FFFF_FFFF_FFFF then s.epoch + 1 else s.epoch)
      && t.log == s.log + [LogEntry(|s.log| + 1, t.epoch, RebalanceNote(s))]
      && t.applied == (if s.leaderId.Some? then s.applied[s.leaderId.value := |s.log| + 1] else s.applied)
      && t.rebalanceHistory == s.rebalanceHistory + RebalancePlans(s)
      && t.nodes == s.nodes && t.leaderId == s.leaderId && t.isolated == s.isolated && t.sessions == s.sessions
  {
    RespreadFrame(s, order);
    RebalanceNoted(RebalanceReplicaSets(Respread(s), order), RebalanceNote(s));
  }

  lemma NothingToRebalance(s: State, order: seq<NodeId>)
    requires s.shardMap.assignments == []
    ensures DoRebalance(s, order) == s
  {
  }

  lemma RebalanceNoted(u: State, note: LogPayload)
    requires u.leaderId.Some? ==> u.leaderId.value in u.applied
    ensures var t := RecomputeCommitIndex(MarkLeaderApplied(PushLog(u, note)));
      && t.log == u.log + [LogEntry(|u.log| + 1, u.epoch, note)] && t.epoch == u.epoch && t.nodes == u.nodes
      && t.applied == (if u.leaderId.Some? then u.applied[u.leaderId.value := |u.log| + 1] else u.applied)
      && t.leaderId == u.leaderId && t.isolated == u.isolated && t.sessions == u.sessions
      && t.rebalanceHistory == u.rebalanceHistory
  {
  }

  // ---------- Replication ----------

  ghost function SumOver(ids: seq<NodeId>, applied: map<NodeId, nat>): nat {
    if ids == [] then 0 else SumOver(ids[..|ids| - 1], applied) + AppliedOf(applied, ids[|ids| - 1])
  }

  /** The number that replication returns is what the applied indexes of its targets gain, all in all. */
  lemma {:induction false} GapIsGain(ids: seq<NodeId>, before: map<NodeId, nat>, after: map<NodeId, nat>, index: nat)
    requires forall id :: id in ids ==> AppliedOf(before, id) <= index && AppliedOf(after, id) == index
    ensures TotalGap(ids, before, index) == SumOver(ids, after) - SumOver(ids, before)
  {
    if ids != [] {
      var n := |ids| - 1;
      assert ids[n] in ids;
      GapIsGain(ids[..n], before, after, index);
    }
  }

  lemma ReplicationGain(s: State, ids: seq<NodeId>)
    requires Inv(s) && IsOrder(ids, AllWho(s, ReplicationTarget))
    ensures TotalGap(ids, s.applied, |s.log|) == SumOver(ids, DoReplicate(s).applied) - SumOver(ids, s.applied)
  {
    forall id | id in ids ensures AppliedOf(DoReplicate(s).applied, id) == |s.log| && AppliedOf(s.applied, id) <= |s.log| {
      ReplicateFacts(s, id);
      WhoCounts(s);
    }
    GapIsGain(ids, s.applied, DoReplicate(s).applied, |s.log|);
  }

  // ---------- Failover ----------

  /** No such leader, or it is unregistered, dead or isolated. */
  ghost predicate Gone(s: State, leader: Option<NodeId>) {
    match leader
    case None => true
    case Some(id) => id !in s.nodes || s.nodes[id].status == Dead || id in s.isolated
  }

  /** `id` is the first of `ids` that is up. */
  ghost predicate FirstUp(s: State, ids: seq<NodeId>, id: NodeId) {
    exists k :: 0 <= k < |ids| && ids[k] == id && Up(s, id) && forall j :: 0 <= j < k ==> !Up(s, ids[j])
  }

  ghost predicate NoneUp(s: State, ids: seq<NodeId>) { forall k :: 0 <= k < |ids| ==> !Up(s, ids[k]) }

  lemma FirstUpIs(s: State, ids: seq<NodeId>)
    ensures var kept := Filter(ids, Among(s, HealthyReachable));
      if kept == [] then NoneUp(s, ids) else FirstUp(s, ids, kept[0])
  {
    WhoCounts(s);
    var k := FirstKept(ids, Among(s, HealthyReachable));
  }

  /** What a check makes of one shard while the metadata leader stands: a gone leader is replaced if anyone is up. */
  ghost predicate Promotes(u: State, order: seq<NodeId>, a: ShardAssignment, b: ShardAssignment) {
    var rs := a.replicaSet;
    if !Gone(u, rs.leaderId) || (NoneUp(u, rs.followerIds) && NoneUp(u, order)) then b == a
    else
      && b.replicaSet.leaderId.Some?
      && var id := b.replicaSet.leaderId.value;
         && (if NoneUp(u, rs.followerIds) then FirstUp(u, order, id) else FirstUp(u, rs.followerIds, id))
         && b == a.(replicaSet := rs.(leaderId := Some(id), followerIds :=
              Filter((if rs.leaderId.Some? then [rs.leaderId.value] else []) + rs.followerIds,
                     m => m != id && m in u.nodes && u.nodes[m].status != Dead)))
  }

  lemma PromotionFacts(u: State, order: seq<NodeId>, a: ShardAssignment)
    ensures Promotes(u, order, a, PromotedIfNeeded(u, a, order))
  {
    var rs := a.replicaSet;
    FirstUpIs(u, rs.followerIds);
    FirstUpIs(u, order);
    FirstUpSome(u, rs.followerIds);
    FirstUpSome(u, order);
    if NeedsPromotion(u, a, order) {
      var id := Successor(u, a, order).value;
      SameFilter(rs.Members(), StaysFollower(u.nodes, id), m => m != id && m in u.nodes && u.nodes[m].status != Dead);
    }
  }

  lemma FirstUpSome(s: State, ids: seq<NodeId>)
    ensures forall id :: FirstUp(s, ids, id) ==> !NoneUp(s, ids)
  {
  }

  /** While the metadata leader stands, only shard leaders change, each as `Promotes` says. */
  lemma StandingLeaderFacts(s: State, now: nat, order: seq<NodeId>, i: nat)
    requires Inv(s) && i < |s.shardMap.assignments|
    requires !Gone(UpdateLiveness(s, now), s.leaderId)
    ensures var u, t := UpdateLiveness(s, now), DoCheckFailover(s, now, order);
      && t == u.(shardMap := t.shardMap, failoverEvents := t.failoverEvents)
      && t.shardMap == s.shardMap.(assignments := t.shardMap.assignments)
      && |t.shardMap.assignments| == |s.shardMap.assignments|
      && Promotes(u, order, s.shardMap.assignments[i], t.shardMap.assignments[i])
  {
    PromotionFacts(UpdateLiveness(s, now), order, s.shardMap.assignments[i]);
  }

  /** The first node in table order that is up and no learner. */
  ghost predicate FirstVoter(s: State, order: seq<NodeId>, id: NodeId) {
    exists k :: 0 <= k < |order| && order[k] == id && Up(s, id) && s.nodes[id].role != Learner
      && forall j :: 0 <= j < k ==> !(Up(s, order[j]) && s.nodes[order[j]].role != Learner)
  }

  ghost function UpVoters(s: State): set<NodeId> { set id | id in s.nodes && Up(s, id) && s.nodes[id].role != Learner }

  lemma UpVotersAre(s: State)
    ensures AllWho(s, HealthyReachableVoter) == UpVoters(s)
  {
    WhoCounts(s);
  }

  lemma FirstVoterIs(s: State, order: seq<NodeId>)
    requires FailoverWinner(s, order).Some?
    ensures FirstVoter(s, order, FailoverWinner(s, order).value)
  {
    WhoCounts(s);
    var k := FirstKept(order, Among(s, HealthyReachableVoter));
  }

  /** When the metadata leader is gone: with a majority of voters up the first of them is elected, else nothing changes. */
  lemma LostLeaderFacts(s: State, now: nat, order: seq<NodeId>)
    requires Inv(s) && IsOrder(order, s.nodes.Keys)
    requires Gone(UpdateLiveness(s, now), s.leaderId)
    ensures var u, t := UpdateLiveness(s, now), DoCheckFailover(s, now, order);
      if 2 * |UpVoters(u)| > |AllVoters(u)| then
        exists w :: FirstVoter(u, order, w) && Elected(u, t, w)
          && t.failoverEvents == s.failoverEvents + ElectionEvents(t, now, s.leaderId, w)
      else t == u
  {
    var u := UpdateLiveness(s, now);
    LivenessInv(s, now);
    UpVotersAre(u);
    WhoCounts(u);
    MajorityOf(|UpVoters(u)|, |AllVoters(u)|);
    WinnerIsHealthyVoter(u, order);
    if 2 * |UpVoters(u)| > |AllVoters(u)| {
      var w := FailoverWinner(u, order).value;
      FirstVoterIs(u, order);
      ElectLog(u, w, order);
      LostLeaderEvents(s, now, order, w);
      assert FirstVoter(u, order, w) && Elected(u, DoCheckFailover(s, now, order), w);
    }
  }

  lemma LostLeaderEvents(s: State, now: nat, order: seq<NodeId>, w: NodeId)
    requires FailoverElects(UpdateLiveness(s, now), order)
    requires FailoverWinner(UpdateLiveness(s, now), order) == Some(w)
    ensures var t := DoCheckFailover(s, now, order);
      && t == Elect(UpdateLiveness(s, now), w, order).(failoverEvents := t.failoverEvents)
      && t.failoverEvents == s.failoverEvents + ElectionEvents(t, now, s.leaderId, w)
  {
    ElectKeepsEvents(UpdateLiveness(s, now), w, order);
    var e, t := Elect(UpdateLiveness(s, now), w, order), DoCheckFailover(s, now, order);
    assert ElectionEvents(t, now, s.leaderId, w) == ElectionEvents(e, now, s.leaderId, w);
  }

  lemma ElectKeepsEvents(s: State, w: NodeId, order: seq<NodeId>)
    ensures Elect(s, w, order).failoverEvents == s.failoverEvents
  {
  }

  /** One event for each shard, naming the lost metadata leader and who leads the shard now. */
  lemma ElectionEventFacts(s: State, now: nat, previous: Option<NodeId>, winner: NodeId, i: nat)
    requires i < |s.shardMap.assignments|
    ensures var a := s.shardMap.assignments[i];
      && |ElectionEvents(s, now, previous, winner)| == |s.shardMap.assignments|
      && ElectionEvents(s, now, previous, winner)[i] == FailoverEvent(now, a.shardId, previous,
           if a.replicaSet.leaderId.Some? then a.replicaSet.leaderId.value else winner, MetadataLeaderLost)
  {
  }

  /** The shard at position `i` gets another leader in a check. */
  ghost predicate Replaced(u: State, order: seq<NodeId>, i: nat) {
    && i < |u.shardMap.assignments|
    && Gone(u, u.shardMap.assignments[i].replicaSet.leaderId)
    && !(NoneUp(u, u.shardMap.assignments[i].replicaSet.followerIds) && NoneUp(u, order))
  }

  lemma ReplacedIff(u: State, order: seq<NodeId>, i: nat)
    requires i < |u.shardMap.assignments|
    ensures Replaced(u, order, i) <==> NeedsPromotion(u, u.shardMap.assignments[i], order)
  {
    var rs := u.shardMap.assignments[i].replicaSet;
    FirstUpIs(u, rs.followerIds);
    FirstUpIs(u, order);
    FirstUpSome(u, rs.followerIds);
    FirstUpSome(u, order);
  }

  /** The shard, its old leader, and the leader it gets. */
  ghost function EventAt(u: State, now: nat, order: seq<NodeId>, i: nat): FailoverEvent
    requires i < |u.shardMap.assignments|
  {
    var a := u.shardMap.assignments[i];
    var leader := PromotedIfNeeded(u, a, order).replicaSet.leaderId;
    FailoverEvent(now, a.shardId, a.replicaSet.leaderId, if leader.Some? then leader.value else "", ShardLeaderLost)
  }

  /** The events of the replaced ones among the first `k` shards, in order. */
  ghost function EventsBelow(u: State, now: nat, order: seq<NodeId>, k: nat): seq<FailoverEvent>
    requires k <= |u.shardMap.assignments|
  {
    if k == 0 then []
    else EventsBelow(u, now, order, k - 1) + (if Replaced(u, order, k - 1) then [EventAt(u, now, order, k - 1)] else [])
  }

  lemma EventStep(u: State, now: nat, order: seq<NodeId>, k: nat)
    requires 0 < k <= |u.shardMap.assignments|
    ensures PromotionEvents(u, now, order, k) == PromotionEvents(u, now, order, k - 1)
      + (if Replaced(u, order, k - 1) then [EventAt(u, now, order, k - 1)] else [])
  {
    ReplacedIff(u, order, k - 1);
  }

  lemma {:induction false} PromotionEventFacts(u: State, now: nat, order: seq<NodeId>, k: nat)
    requires k <= |u.shardMap.assignments|
    ensures PromotionEvents(u, now, order, k) == EventsBelow(u, now, order, k)
  {
    if k > 0 {
      PromotionEventFacts(u, now, order, k - 1);
      EventStep(u, now, order, k);
    }
  }

  /** A check that finds the metadata leader standing reports one event for each replaced shard, in order. */
  lemma StandingLeaderEvents(s: State, now: nat, order: seq<NodeId>)
    requires !Gone(UpdateLiveness(s, now), s.leaderId)
    ensures DoCheckFailover(s, now, order).failoverEvents ==
      s.failoverEvents + EventsBelow(UpdateLiveness(s, now), now, order, |s.shardMap.assignments|)
  {
    PromotionEventFacts(UpdateLiveness(s, now), now, order, |s.shardMap.assignments|);
  }
}
