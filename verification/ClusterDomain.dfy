/** Value types of the cluster control plane, and the shard map lookups. */
module ClusterDomain {
  import opened Prelude

  type NodeId = string

  const U32_MAX: nat := 0xFFFF_FFFF
  const U64_MAX: nat := 0xFFFF_FFFF_FFFF_FFFF

  datatype NodeRole = Leader | Follower | Learner | Candidate

  datatype NodeStatus = Healthy | Suspect | Dead {
    predicate IsVotable() { Healthy? || Suspect? }
  }

  datatype ClusterNode = ClusterNode(
    nodeId: NodeId, address: string, region: string,
    role: NodeRole, status: NodeStatus, lastHeartbeat: nat)

  /** Inclusive range of hash slots. */
  datatype SlotRange = SlotRange(start: nat, end: nat) {
    predicate Contains(slot: nat) { start <= slot <= end }
  }

  datatype ReplicaSet = ReplicaSet(
    shardId: nat, leaderId: Option<NodeId>, followerIds: seq<NodeId>, learnerIds: seq<NodeId>,
    lastSnapshot: Option<nat>, replicaLag: seq<(NodeId, nat)>)
  {
    function Members(): seq<NodeId> {
      (if leaderId.Some? then [leaderId.value] else []) + followerIds
    }

    function LagOf(node: NodeId): Option<nat> { LagIn(replicaLag, node) }
  }

  /** First recorded lag of `node`, if any. */
  function LagIn(lags: seq<(NodeId, nat)>, node: NodeId): Option<nat> {
    if lags == [] then None
    else if lags[0].0 == node then Some(lags[0].1)
    else LagIn(lags[1..], node)
  }

  datatype ShardAssignment = ShardAssignment(shardId: nat, slots: SlotRange, replicaSet: ReplicaSet)

  datatype ShardMap = ShardMap(epoch: nat, slotCount: nat, assignments: seq<ShardAssignment>)

  datatype LogPayload =
    | Noop
    | Metadata(text: string)
    | Data(shard: nat, op: string)
    | RegisterNode(node: ClusterNode)
    | Heartbeat(nodeId: NodeId, tick: nat)
    | SetNodeStatus(nodeId: NodeId, status: NodeStatus)

  datatype LogEntry = LogEntry(index: nat, term: nat, payload: LogPayload)

  datatype FailoverReason = MetadataLeaderLost | ShardLeaderLost

  datatype FailoverEvent = FailoverEvent(
    atTick: nat, shardId: nat, oldLeader: Option<NodeId>, newLeader: NodeId, reason: FailoverReason)

  datatype RebalancePlan = RebalancePlan(fromShard: nat, toShard: nat, slots: SlotRange)

  datatype ConsistencyLevel = Strong | Session | Eventual

  datatype ReadRoute = ReadRoute(
    shardId: nat, targetNode: NodeId, consistency: ConsistencyLevel,
    servedByLeader: bool, maxStalenessIndex: Option<nat>)

  datatype WriteRoute = WriteRoute(shardId: nat, leaderNode: NodeId)

  datatype ClusterError =
    | CandidateNotRegistered
    | NoLeaderToAppend
    | LeaderIsolated
    | NoShardAssignment
    | ShardHasNoLeader
    | LeaderNodeMissing
    | ShardLeaderUnavailable
    | BootstrapRequiresNodes
    | BootstrapElectionFailed

  /** Epochs are 64-bit and saturate. */
  function NextEpoch(e: nat): nat { if e >= U64_MAX then e else e + 1 }

  function SaturatingAdd32(a: nat, b: nat): nat { Min(a + b, U32_MAX) }

  /** First assignment whose range holds `slot`. */
  function FindShard(assignments: seq<ShardAssignment>, slot: nat): (r: Option<ShardAssignment>)
    ensures r.Some? ==> r.value in assignments && r.value.slots.Contains(slot)
  {
    if assignments == [] then None
    else if assignments[0].slots.Contains(slot) then Some(assignments[0])
    else FindShard(assignments[1..], slot)
  }

  function ShardForSlot(m: ShardMap, slot: nat): Option<ShardAssignment> {
    FindShard(m.assignments, slot % Max(m.slotCount, 1))
  }

  function ShardForKey(m: ShardMap, key: Bytes): Option<ShardAssignment> {
    ShardForSlot(m, HashSlot(key, Max(m.slotCount, 1)))
  }

  /** Bitwise exclusive or. */
  function Xor(a: nat, b: nat): nat {
    if a == 0 && b == 0 then 0 else 2 * Xor(a / 2, b / 2) + (a % 2 + b % 2) % 2
  }

  function WrappingMul32(a: nat, b: nat): nat { a * b % (U32_MAX + 1) }

  /** 32-bit FNV-1a over the key's bytes. */
  function Fnv(key: Bytes): nat {
    if key == [] then 2166136261
    else WrappingMul32(Xor(Fnv(key[..|key| - 1]), key[|key| - 1]), 16777619)
  }

  function HashSlot(key: Bytes, slotCount: nat): (slot: nat)
    ensures slot < Max(slotCount, 1)
  {
    Fnv(key) % Max(slotCount, 1)
  }

  method ComputeHashSlot(key: Bytes, slotCount: nat) returns (slot: nat)
    ensures slot == HashSlot(key, slotCount)
  {
    var hash := 2166136261;
    for i := 0 to |key|
      invariant hash == Fnv(key[..i])
    {
      assert key[..i + 1][..i] == key[..i];
      hash := Xor(hash, key[i]);
      hash := WrappingMul32(hash, 16777619);
    }
    assert key[..|key|] == key;
    slot := hash % Max(slotCount, 1);
  }
}
