/**
 * The control plane as a state machine on values. Every public call is one atomic step.
 * `order` is the iteration order of the node table during that step: any duplicate-free
 * listing of its keys.
 */
module ClusterSpec {
  import opened Prelude
  import opened ClusterDomain

  datatype Config = Config(
    region: string, slotCount: U32, shardCount: U32, initialSlotBias: U32,
    suspectAfterTicks: nat, deadAfterTicks: nat, maxEventualLag: nat)

  datatype State = State(
    config: Config,
    epoch: nat,
    leaderId: Option<NodeId>,
    nodes: map<NodeId, ClusterNode>,
    shardMap: ShardMap,
    log: seq<LogEntry>,
    commitIndex: nat,
    applied: map<NodeId, nat>,
    sessions: map<string, NodeId>,
    isolated: seq<NodeId>,
    failoverEvents: seq<FailoverEvent>,
    rebalanceHistory: seq<RebalancePlan>,
    nowTick: nat)

  // ---------- Selecting nodes ----------

  datatype Who = HealthyReachable | ReachableVoter | Voter | HealthyReachableVoter | ReplicationTarget

  predicate Is(s: State, who: Who, id: NodeId) {
    && id in s.nodes
    && var n := s.nodes[id];
       var voter := !n.role.Learner?;
       match who
       case HealthyReachable => n.status.Healthy? && id !in s.isolated
       case ReachableVoter => n.status.IsVotable() && voter && id !in s.isolated
       case Voter => n.status.IsVotable() && voter
       case HealthyReachableVoter => n.status.Healthy? && voter && id !in s.isolated
       case ReplicationTarget => Some(id) != s.leaderId && n.status.Healthy? && voter && id !in s.isolated
  }

  function Among(s: State, who: Who): NodeId -> bool { id => Is(s, who, id) }

  function AllWho(s: State, who: Who): set<NodeId> { set id | id in s.nodes && Is(s, who, id) }

  ghost predicate IsOrder(order: seq<NodeId>, keys: set<NodeId>) {
    NoDup(order) && forall id :: id in order <==> id in keys
  }

  function AppliedOf(applied: map<NodeId, nat>, id: NodeId): nat {
    if id in applied then applied[id] else 0
  }

  // ---------- Shard placement at boot ----------

  function EvenRange(i: nat, shardCount: nat, slotCount: nat): SlotRange
    requires i < shardCount <= slotCount
  {
    var per := slotCount / shardCount;
    PerPositive(shardCount, slotCount);
    Scale(i, per);
    SlotRange(i * per, if i + 1 == shardCount then slotCount - 1 else (i + 1) * per - 1)
  }

  lemma PerPositive(shardCount: nat, slotCount: nat)
    requires 0 < shardCount <= slotCount
    ensures slotCount / shardCount >= 1
    ensures shardCount * (slotCount / shardCount) <= slotCount
  {
  }

  lemma Scale(i: nat, per: nat)
    requires per >= 1
    ensures (i + 1) * per == i * per + per
    ensures 0 <= i * per
  {
  }

  function EmptyReplicaSet(shardId: nat): ReplicaSet {
    ReplicaSet(shardId, None, [], [], None, [])
  }

  function EvenAssignments(shardCount: nat, slotCount: nat): (r: seq<ShardAssignment>)
    requires shardCount <= slotCount
    ensures |r| == shardCount
    ensures forall i :: 0 <= i < shardCount ==>
      r[i] == ShardAssignment(i, EvenRange(i, shardCount, slotCount), EmptyReplicaSet(i))
  {
    seq(shardCount, i requires 0 <= i < shardCount =>
      ShardAssignment(i, EvenRange(i, shardCount, slotCount), EmptyReplicaSet(i)))
  }

  /** The boot skew: every boundary between shards moves right by the (clamped) bias. */
  function Bias(assignments: seq<ShardAssignment>, bias: nat): (r: seq<ShardAssignment>)
    ensures |r| == |assignments|
  {
    var n := |assignments|;
    if bias == 0 || n < 2 then assignments
    else
      var b := Min(bias, Monus(assignments[n - 1].slots.end, assignments[n - 1].slots.start));
      seq(n, i requires 0 <= i < n => assignments[i].(slots := BiasedRange(assignments, b, i)))
  }

  function BiasedRange(assignments: seq<ShardAssignment>, b: nat, i: nat): SlotRange
    requires i < |assignments|
  {
    var r := assignments[i].slots;
    SlotRange(
      if i == 0 then r.start else SaturatingAdd32(r.start, b),
      if i + 1 == |assignments| then r.end else SaturatingAdd32(r.end, b))
  }

  function BootShardCount(c: Config): nat { Max(c.shardCount, 1) }

  function BootSlotCount(c: Config): nat { Max(c.slotCount, BootShardCount(c)) }

  function Boot(c: Config): State {
    var assignments := Bias(EvenAssignments(BootShardCount(c), BootSlotCount(c)), c.initialSlotBias);
    State(c, 0, None, map[], ShardMap(0, BootSlotCount(c), assignments), [], 0, map[], map[], [], [], [], 0)
  }

  // ---------- Internal updates ----------

  function WithRole(leader: Option<NodeId>, n: ClusterNode): ClusterNode {
    if Some(n.nodeId) == leader then n.(role := NodeRole.Leader)
    else if !n.role.Learner? then n.(role := Follower)
    else n
  }

  function RefreshRoles(s: State): State {
    s.(nodes := map id | id in s.nodes :: WithRole(s.leaderId, s.nodes[id]))
  }

  function Aged(c: Config, now: nat, n: ClusterNode): ClusterNode {
    var age := Monus(now, n.lastHeartbeat);
    n.(status := if age >= c.deadAfterTicks then Dead
                 else if age >= c.suspectAfterTicks then Suspect
                 else Healthy)
  }

  function UpdateLiveness(s: State, now: nat): State {
    s.(nowTick := now, nodes := map id | id in s.nodes :: Aged(s.config, now, s.nodes[id]))
  }

  function LagOfFollower(s: State, f: NodeId): nat { Monus(|s.log|, AppliedOf(s.applied, f)) }

  function LagList(s: State, followers: seq<NodeId>): (r: seq<(NodeId, nat)>)
    ensures |r| == |followers|
    ensures forall j :: 0 <= j < |r| ==> r[j] == (followers[j], LagOfFollower(s, followers[j]))
  {
    seq(|followers|, j requires 0 <= j < |followers| => (followers[j], LagOfFollower(s, followers[j])))
  }

  function Except(x: NodeId): NodeId -> bool { id => id != x }

  function Primary(s: State, healthy: seq<NodeId>, i: nat): NodeId
    requires healthy != []
  {
    if s.leaderId.Some? && s.leaderId.value in healthy then s.leaderId.value else healthy[i % |healthy|]
  }

  function PlacedReplicaSet(s: State, healthy: seq<NodeId>, i: nat): ReplicaSet
    requires healthy != [] && i < |s.shardMap.assignments|
  {
    var a := s.shardMap.assignments[i];
    var primary := Primary(s, healthy, i);
    var followers := Filter(healthy, Except(primary));
    ReplicaSet(a.shardId, Some(primary), followers, [], a.replicaSet.lastSnapshot, LagList(s, followers))
  }

  function PlacedAssignments(s: State, healthy: seq<NodeId>): (r: seq<ShardAssignment>)
    requires healthy != []
    ensures |r| == |s.shardMap.assignments|
    ensures forall i :: 0 <= i < |r| ==>
      r[i] == s.shardMap.assignments[i].(replicaSet := PlacedReplicaSet(s, healthy, i))
  {
    var n := |s.shardMap.assignments|;
    seq(n, i requires 0 <= i < n => s.shardMap.assignments[i].(replicaSet := PlacedReplicaSet(s, healthy, i)))
  }

  function RebalanceReplicaSets(s: State, order: seq<NodeId>): State {
    var healthy := Filter(order, Among(s, HealthyReachable));
    if healthy == [] then s
    else s.(shardMap := ShardMap(s.epoch, s.shardMap.slotCount, PlacedAssignments(s, healthy)))
  }

  function RefreshedAssignments(s: State): (r: seq<ShardAssignment>)
    ensures |r| == |s.shardMap.assignments|
    ensures forall i :: 0 <= i < |r| ==>
      var a := s.shardMap.assignments[i];
      r[i] == a.(replicaSet := a.replicaSet.(replicaLag := LagList(s, a.replicaSet.followerIds)))
  {
    var n := |s.shardMap.assignments|;
    seq(n, i requires 0 <= i < n =>
      var a := s.shardMap.assignments[i];
      a.(replicaSet := a.replicaSet.(replicaLag := LagList(s, a.replicaSet.followerIds))))
  }

  function RefreshLag(s: State): State {
    s.(shardMap := s.shardMap.(assignments := RefreshedAssignments(s)))
  }

  function Backers(applied: map<NodeId, nat>, voters: set<NodeId>, c: nat): set<NodeId> {
    set v | v in voters && AppliedOf(applied, v) >= c
  }

  function Quorum(n: nat): nat { n / 2 + 1 }

  predicate Backed(applied: map<NodeId, nat>, voters: set<NodeId>, c: nat) {
    |Backers(applied, voters, c)| >= Quorum(|voters|)
  }

  /** The largest index not above `bound` that a majority of `voters` has applied (0 if there is none). */
  function LargestBacked(applied: map<NodeId, nat>, voters: set<NodeId>, bound: nat): (c: nat)
    ensures c <= bound
    ensures c == 0 || Backed(applied, voters, c)
    ensures forall d :: c < d <= bound ==> !Backed(applied, voters, d)
  {
    if bound == 0 || Backed(applied, voters, bound) then bound
    else LargestBacked(applied, voters, bound - 1)
  }

  function RecomputeCommitIndex(s: State): State {
    if |s.log| == 0 then s.(commitIndex := 0)
    else
      var voters := AllWho(s, ReachableVoter);
      if voters == {} then s else s.(commitIndex := LargestBacked(s.applied, voters, |s.log|))
  }

  function PushLog(s: State, payload: LogPayload): State {
    s.(log := s.log + [LogEntry(|s.log| + 1, s.epoch, payload)])
  }

  function BumpApplied(s: State, id: NodeId): State {
    if id in s.applied then s.(applied := s.applied[id := |s.log|]) else s
  }

  // ---------- Steps ----------

  function Registered(s: State, node: ClusterNode): State {
    s.(applied := if node.nodeId in s.applied then s.applied else s.applied[node.nodeId := 0],
       nodes := s.nodes[node.nodeId := node])
  }

  function DoRegister(s: State, node: ClusterNode, order: seq<NodeId>): State {
    RecomputeCommitIndex(RebalanceReplicaSets(Registered(s, node), order))
  }

  function DoHeartbeat(s: State, id: NodeId, tick: nat): State {
    var s1 :=
      if id in s.nodes then
        var n := s.nodes[id].(lastHeartbeat := tick);
        s.(nodes := s.nodes[id := if n.status.Dead? then n else n.(status := Healthy)])
      else s;
    s1.(nowTick := Max(s.nowTick, tick))
  }

  function DoSetStatus(s: State, id: NodeId, status: NodeStatus): State {
    if id in s.nodes then s.(nodes := s.nodes[id := s.nodes[id].(status := status)]) else s
  }

  /** The new leader in place, before its first log entry. */
  function Installed(s: State, winner: NodeId, order: seq<NodeId>): State {
    RebalanceReplicaSets(RefreshRoles(s.(epoch := NextEpoch(s.epoch), leaderId := Some(winner))), order)
  }

  /** What an election does once it is won. */
  function Elect(s: State, winner: NodeId, order: seq<NodeId>): State {
    RecomputeCommitIndex(BumpApplied(PushLog(Installed(s, winner, order), Noop), winner))
  }

  predicate LeaderOk(s: State) {
    s.leaderId.Some? && Is(s, HealthyReachable, s.leaderId.value)
  }

  /** The branch of `campaign` in which the candidate wins. */
  predicate CampaignWins(s: State, candidate: NodeId) {
    && candidate in s.nodes
    && s.nodes[candidate].status.IsVotable()
    && candidate !in s.isolated
    && AllWho(s, ReachableVoter) != {}
    && !(LeaderOk(s) && s.leaderId != Some(candidate))
    && |AllWho(s, ReachableVoter)| >= Quorum(|AllWho(s, Voter)|)
  }

  function CampaignResult(s: State, candidate: NodeId): Result<Option<NodeId>, ClusterError> {
    if candidate !in s.nodes then Err(CandidateNotRegistered)
    else if !s.nodes[candidate].status.IsVotable() || candidate in s.isolated then Ok(None)
    else if AllWho(s, ReachableVoter) == {} then Ok(None)
    else if LeaderOk(s) && s.leaderId != Some(candidate) then Ok(s.leaderId)
    else if CampaignWins(s, candidate) then Ok(Some(candidate))
    else Ok(None)
  }

  function DoCampaign(s: State, candidate: NodeId, order: seq<NodeId>): State {
    if CampaignWins(s, candidate) then Elect(s, candidate, order) else s
  }

  function DoStepDown(s: State, leader: NodeId): State {
    if s.leaderId == Some(leader) then RefreshRoles(s.(leaderId := None)) else s
  }

  predicate CanAppend(s: State) { s.leaderId.Some? && s.leaderId.value !in s.isolated }

  function DoAppend(s: State, payload: LogPayload): State {
    if !CanAppend(s) then s
    else RecomputeCommitIndex(RefreshLag(BumpApplied(PushLog(s, payload), s.leaderId.value)))
  }

  function Replicated(s: State): map<NodeId, nat> {
    map id | id in s.applied.Keys + AllWho(s, ReplicationTarget) ::
      if Is(s, ReplicationTarget, id) then Max(AppliedOf(s.applied, id), |s.log|) else AppliedOf(s.applied, id)
  }

  /** How many entries `ids` are short of `index`, in total. */
  function TotalGap(ids: seq<NodeId>, applied: map<NodeId, nat>, index: nat): nat {
    if ids == [] then 0
    else
      var n := |ids| - 1;
      TotalGap(ids[..n], applied, index) + Monus(index, AppliedOf(applied, ids[n]))
  }

  function DoReplicate(s: State): State {
    RecomputeCommitIndex(RefreshLag(s.(applied := Replicated(s))))
  }

  predicate Down(s: State, leader: Option<NodeId>) {
    || leader.None?
    || leader.value !in s.nodes
    || s.nodes[leader.value].status.Dead?
    || leader.value in s.isolated
  }

  /** First healthy reachable follower, else the first healthy reachable node. */
  function Successor(s: State, a: ShardAssignment, order: seq<NodeId>): Option<NodeId> {
    var followers := Filter(a.replicaSet.followerIds, Among(s, HealthyReachable));
    var others := Filter(order, Among(s, HealthyReachable));
    if followers != [] then Some(followers[0])
    else if others != [] then Some(others[0])
    else None
  }

  predicate NeedsPromotion(s: State, a: ShardAssignment, order: seq<NodeId>) {
    Down(s, a.replicaSet.leaderId) && Successor(s, a, order).Some?
  }

  function StaysFollower(nodes: map<NodeId, ClusterNode>, newLeader: NodeId): NodeId -> bool {
    m => m != newLeader && m in nodes && !nodes[m].status.Dead?
  }

  function Promoted(nodes: map<NodeId, ClusterNode>, a: ShardAssignment, newLeader: NodeId): ShardAssignment {
    a.(replicaSet := a.replicaSet.(
      leaderId := Some(newLeader),
      followerIds := Filter(a.replicaSet.Members(), StaysFollower(nodes, newLeader))))
  }

  function PromotedIfNeeded(s: State, a: ShardAssignment, order: seq<NodeId>): ShardAssignment {
    if NeedsPromotion(s, a, order) then Promoted(s.nodes, a, Successor(s, a, order).value) else a
  }

  function PromotedAssignments(s: State, order: seq<NodeId>): (r: seq<ShardAssignment>)
    ensures |r| == |s.shardMap.assignments|
    ensures forall i :: 0 <= i < |r| ==> r[i] == PromotedIfNeeded(s, s.shardMap.assignments[i], order)
  {
    var n := |s.shardMap.assignments|;
    seq(n, i requires 0 <= i < n => PromotedIfNeeded(s, s.shardMap.assignments[i], order))
  }

  /** Events of the promotions among the first `k` shards. */
  function PromotionEvents(s: State, now: nat, order: seq<NodeId>, k: nat): seq<FailoverEvent>
    requires k <= |s.shardMap.assignments|
  {
    if k == 0 then []
    else
      var a := s.shardMap.assignments[k - 1];
      PromotionEvents(s, now, order, k - 1) +
      (if NeedsPromotion(s, a, order)
       then [FailoverEvent(now, a.shardId, a.replicaSet.leaderId, Successor(s, a, order).value, ShardLeaderLost)]
       else [])
  }

  function ElectionEvents(s: State, now: nat, previous: Option<NodeId>, winner: NodeId): (r: seq<FailoverEvent>)
    ensures |r| == |s.shardMap.assignments|
    ensures forall i :: 0 <= i < |r| ==> r[i] == ElectionEvent(s.shardMap.assignments[i], now, previous, winner)
  {
    var n := |s.shardMap.assignments|;
    seq(n, i requires 0 <= i < n => ElectionEvent(s.shardMap.assignments[i], now, previous, winner))
  }

  function ElectionEvent(a: ShardAssignment, now: nat, previous: Option<NodeId>, winner: NodeId): FailoverEvent {
    var newLeader := if a.replicaSet.leaderId.Some? then a.replicaSet.leaderId.value else winner;
    FailoverEvent(now, a.shardId, previous, newLeader, MetadataLeaderLost)
  }

  /** Enough healthy reachable voters to replace the metadata leader. `s` has fresh liveness. */
  predicate FailoverQuorum(s: State) {
    |AllWho(s, HealthyReachableVoter)| >= Quorum(|AllWho(s, Voter)|)
  }

  function FailoverWinner(s: State, order: seq<NodeId>): Option<NodeId> {
    var reachable := Filter(order, Among(s, HealthyReachableVoter));
    if reachable == [] then None else Some(reachable[0])
  }

  predicate FailoverElects(s: State, order: seq<NodeId>) {
    Down(s, s.leaderId) && FailoverQuorum(s) && FailoverWinner(s, order).Some?
  }

  /** The events of a check made in `s`, whose liveness is fresh. */
  function CheckEvents(s: State, now: nat, order: seq<NodeId>): seq<FailoverEvent> {
    if FailoverElects(s, order) then
      var winner := FailoverWinner(s, order).value;
      ElectionEvents(Elect(s, winner, order), now, s.leaderId, winner)
    else if Down(s, s.leaderId) then []
    else PromotionEvents(s, now, order, |s.shardMap.assignments|)
  }

  function WithPromotions(s: State, order: seq<NodeId>): State {
    s.(shardMap := s.shardMap.(assignments := PromotedAssignments(s, order)))
  }

  function AfterCheck(s: State, order: seq<NodeId>): State {
    if FailoverElects(s, order) then Elect(s, FailoverWinner(s, order).value, order)
    else if Down(s, s.leaderId) then s
    else WithPromotions(s, order)
  }

  function FailoverEvents(s: State, now: nat, order: seq<NodeId>): seq<FailoverEvent> {
    CheckEvents(UpdateLiveness(s, now), now, order)
  }

  function AddEvents(s: State, events: seq<FailoverEvent>): State {
    s.(failoverEvents := s.failoverEvents + events)
  }

  function DoCheckFailover(s: State, now: nat, order: seq<NodeId>): State {
    AddEvents(AfterCheck(UpdateLiveness(s, now), order), FailoverEvents(s, now, order))
  }

  function EvenlyReassigned(s: State): (r: seq<ShardAssignment>)
    requires |s.shardMap.assignments| <= s.shardMap.slotCount
    ensures |r| == |s.shardMap.assignments|
    ensures forall i :: 0 <= i < |r| ==>
      r[i] == ShardAssignment(i, EvenRange(i, |r|, s.shardMap.slotCount),
                              s.shardMap.assignments[i].replicaSet.(shardId := i))
  {
    var n := |s.shardMap.assignments|;
    seq(n, i requires 0 <= i < n =>
      ShardAssignment(i, EvenRange(i, n, s.shardMap.slotCount), s.shardMap.assignments[i].replicaSet.(shardId := i)))
  }

  function Plans(before: seq<ShardAssignment>, after: seq<ShardAssignment>, k: nat): seq<RebalancePlan>
    requires k <= |before| == |after|
  {
    if k == 0 then []
    else
      var plan := RebalancePlan(before[k - 1].shardId, after[k - 1].shardId, after[k - 1].slots);
      Plans(before, after, k - 1) + (if before[k - 1].slots != after[k - 1].slots then [plan] else [])
  }

  function RebalancePlans(s: State): seq<RebalancePlan>
    requires |s.shardMap.assignments| <= s.shardMap.slotCount
  {
    Plans(s.shardMap.assignments, EvenlyReassigned(s), |s.shardMap.assignments|)
  }

  /** New even ranges under a new epoch, replica sets as before. */
  function Respread(s: State): State
    requires |s.shardMap.assignments| <= s.shardMap.slotCount
  {
    var epoch := NextEpoch(s.epoch);
    s.(epoch := epoch, shardMap := s.shardMap.(assignments := EvenlyReassigned(s), epoch := epoch))
  }

  function RebalanceNote(s: State): LogPayload
    requires |s.shardMap.assignments| <= s.shardMap.slotCount
  {
    Metadata("rebalance plans=" + Decimal(|RebalancePlans(s)|))
  }

  function MarkLeaderApplied(s: State): State {
    if s.leaderId.Some? then BumpApplied(s, s.leaderId.value) else s
  }

  function DoRebalance(s: State, order: seq<NodeId>): State
    requires |s.shardMap.assignments| <= s.shardMap.slotCount
  {
    if s.shardMap.assignments == [] then s
    else
      var placed := RebalanceReplicaSets(Respread(s), order);
      var s1 := RecomputeCommitIndex(MarkLeaderApplied(PushLog(placed, RebalanceNote(s))));
      s1.(rebalanceHistory := s1.rebalanceHistory + RebalancePlans(s))
  }

  function DoPartition(s: State, isolated: seq<NodeId>): State {
    RecomputeCommitIndex(s.(isolated := isolated))
  }

  // ---------- Routing ----------

  function RouteWrite(s: State, key: Bytes): Result<WriteRoute, ClusterError> {
    var shard := ShardForKey(s.shardMap, key);
    if shard.None? then Err(NoShardAssignment)
    else if shard.value.replicaSet.leaderId.None? then Err(ShardHasNoLeader)
    else
      var leader := shard.value.replicaSet.leaderId.value;
      if leader !in s.nodes then Err(LeaderNodeMissing)
      else if Down(s, Some(leader)) then Err(ShardLeaderUnavailable)
      else Ok(WriteRoute(shard.value.shardId, leader))
  }

  /** An eventual read may use this follower. An unrecorded lag counts as the largest 64-bit value. */
  predicate EventualCandidate(s: State, rs: ReplicaSet, f: NodeId) {
    && Is(s, HealthyReachable, f)
    && var lag := rs.LagOf(f);
       (if lag.Some? then lag.value else U64_MAX) <= s.config.maxEventualLag
  }

  function Eligible(s: State, rs: ReplicaSet): NodeId -> bool { f => EventualCandidate(s, rs, f) }

  predicate Sticky(s: State, rs: ReplicaSet, session: Option<string>) {
    && session.Some?
    && session.value in s.sessions
    && var prev := s.sessions[session.value];
       && prev in s.nodes && s.nodes[prev].status.Healthy?
       && (rs.leaderId == Some(prev) || prev in rs.followerIds)
  }

  function RouteRead(s: State, key: Bytes, level: ConsistencyLevel, session: Option<string>)
    : Result<ReadRoute, ClusterError>
  {
    var shard := ShardForKey(s.shardMap, key);
    if shard.None? then Err(NoShardAssignment)
    else if shard.value.replicaSet.leaderId.None? then Err(ShardHasNoLeader)
    else
      var rs := shard.value.replicaSet;
      var leader := rs.leaderId.value;
      var id := shard.value.shardId;
      match level
      case Strong => Ok(ReadRoute(id, leader, level, true, None))
      case Session =>
        if Sticky(s, rs, session) then
          var prev := s.sessions[session.value];
          Ok(ReadRoute(id, prev, level, prev == leader, None))
        else Ok(ReadRoute(id, leader, level, true, None))
      case Eventual =>
        var eligible := Filter(rs.followerIds, Eligible(s, rs));
        if eligible != [] then Ok(ReadRoute(id, eligible[0], level, false, Some(s.config.maxEventualLag)))
        else Ok(ReadRoute(id, leader, level, true, Some(s.config.maxEventualLag)))
  }

  function DoReadSession(s: State, key: Bytes, session: string, level: ConsistencyLevel): State {
    var route := RouteRead(s, key, level, Some(session));
    if route.Ok? then s.(sessions := s.sessions[session := route.value.targetNode]) else s
  }

  // ---------- Runs ----------

  datatype Step =
    | Register(node: ClusterNode, order: seq<NodeId>)
    | Beat(id: NodeId, tick: nat)
    | SetStatus(id: NodeId, status: NodeStatus)
    | Liveness(now: nat)
    | Campaign(candidate: NodeId, order: seq<NodeId>)
    | StepDown(leader: NodeId)
    | Append(payload: LogPayload)
    | Replicate
    | CheckFailover(now: nat, order: seq<NodeId>)
    | Rebalance(order: seq<NodeId>)
    | Partition(isolated: seq<NodeId>)
    | ReadSession(key: Bytes, session: string, level: ConsistencyLevel)

  ghost predicate Enabled(s: State, step: Step) {
    match step
    case Register(node, order) => IsOrder(order, s.nodes.Keys + {node.nodeId})
    case Campaign(_, order) => IsOrder(order, s.nodes.Keys)
    case CheckFailover(_, order) => IsOrder(order, s.nodes.Keys)
    case Rebalance(order) => IsOrder(order, s.nodes.Keys) && |s.shardMap.assignments| <= s.shardMap.slotCount
    case _ => true
  }

  ghost function Apply(s: State, step: Step): State
    requires Enabled(s, step)
  {
    match step
    case Register(node, order) => DoRegister(s, node, order)
    case Beat(id, tick) => DoHeartbeat(s, id, tick)
    case SetStatus(id, status) => DoSetStatus(s, id, status)
    case Liveness(now) => UpdateLiveness(s, now)
    case Campaign(candidate, order) => DoCampaign(s, candidate, order)
    case StepDown(leader) => DoStepDown(s, leader)
    case Append(payload) => DoAppend(s, payload)
    case Replicate => DoReplicate(s)
    case CheckFailover(now, order) => DoCheckFailover(s, now, order)
    case Rebalance(order) => DoRebalance(s, order)
    case Partition(isolated) => DoPartition(s, isolated)
    case ReadSession(key, session, level) => DoReadSession(s, key, session, level)
  }

  /** The node that wins an election in this step, if there is one. */
  ghost function ElectionWinner(s: State, step: Step): Option<NodeId> {
    match step
    case Campaign(candidate, _) => if CampaignWins(s, candidate) then Some(candidate) else None
    case CheckFailover(now, order) =>
      var s1 := UpdateLiveness(s, now);
      if FailoverElects(s1, order) then FailoverWinner(s1, order) else None
    case _ => None
  }

  ghost predicate Legal(c: Config, steps: seq<Step>)
    decreases |steps|, 0
  {
    steps == [] ||
    (var n := |steps| - 1; Legal(c, steps[..n]) && Enabled(Exec(c, steps[..n]), steps[n]))
  }

  /** The state after `steps`, from boot. */
  ghost function Exec(c: Config, steps: seq<Step>): State
    requires Legal(c, steps)
    decreases |steps|, 1
  {
    if steps == [] then Boot(c)
    else var n := |steps| - 1; Apply(Exec(c, steps[..n]), steps[n])
  }

  lemma ExecSnoc(c: Config, steps: seq<Step>, step: Step)
    requires Legal(c, steps) && Enabled(Exec(c, steps), step)
    ensures Legal(c, steps + [step])
    ensures Exec(c, steps + [step]) == Apply(Exec(c, steps), step)
  {
    assert (steps + [step])[..|steps|] == steps;
  }
}
