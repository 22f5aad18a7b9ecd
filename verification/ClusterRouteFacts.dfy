/** Where reads and writes go, in terms of the shard that holds the key's slot. */
module ClusterRouteFacts {
  import opened Prelude
  import opened ClusterDomain
  import opened ClusterSpec
  import opened ClusterInvariants
  import opened ClusterElections
  import opened ClusterFacts
  import Shards = ClusterShards

  /** The range of the shard at position `i` holds the key's slot. */
  ghost predicate HasKey(s: State, i: nat, key: Bytes) {
    && i < |s.shardMap.assignments|
    && s.shardMap.assignments[i].slots.start <= HashSlot(key, s.shardMap.slotCount) <= s.shardMap.assignments[i].slots.end
  }

  /** There is one such shard, and it is the one a key is looked up in. */
  lemma LookedUp(s: State, key: Bytes) returns (i: nat)
    requires Partitioned(s.shardMap)
    ensures HasKey(s, i, key) && ShardForKey(s.shardMap, key) == Some(s.shardMap.assignments[i])
    ensures forall j: nat :: HasKey(s, j, key) ==> j == i
  {
    i := Shards.PartitionRoutes(s.shardMap, key);
    forall j: nat | HasKey(s, j, key) ensures j == i {
      if i < j { EndsAscend(s.shardMap, i, j); }
      if j < i { EndsAscend(s.shardMap, j, i); }
    }
  }

  lemma {:induction false} FirstKept<T>(xs: seq<T>, p: T -> bool) returns (i: nat)
    ensures i <= |xs| && (forall j :: 0 <= j < i ==> !p(xs[j])) && (i < |xs| ==> p(xs[i]))
    ensures Filter(xs, p) == [] <==> i == |xs|
    ensures i < |xs| ==> Filter(xs, p)[0] == xs[i]
  {
    if xs == [] {
      i := 0;
    } else {
      var n := |xs| - 1;
      i := FirstKept(xs[..n], p);
      if i == n && !p(xs[n]) { i := n + 1; }
    }
  }

  // ---------- Reads ----------

  /** A follower may serve an eventual read: healthy, reachable, and recorded as no further behind than the limit. */
  ghost predicate MayServe(s: State, rs: ReplicaSet, f: NodeId) {
    && Up(s, f)
    && match rs.LagOf(f)
       case Some(lag) => lag <= s.config.maxEventualLag
       case None => s.config.maxEventualLag >= 0xFFFF_FFFF_FFFF_FFFF
  }

  /** A strong read of a led shard goes to its leader, never to a follower, with no staleness bound. */
  lemma StrongRead(s: State, key: Bytes, session: Option<string>, i: nat)
    requires Inv(s) && HasKey(s, i, key)
    ensures var a, r := s.shardMap.assignments[i], RouteRead(s, key, Strong, session);
      match a.replicaSet.leaderId
      case None => r == Err(ShardHasNoLeader)
      case Some(leader) => r == Ok(ReadRoute(a.shardId, leader, Strong, true, None)) && leader !in a.replicaSet.followerIds
  {
    var j := LookedUp(s, key);
    assert ReplicaOk(s.shardMap.assignments[i].replicaSet, s.nodes.Keys);
  }

  /** The pinned node may keep serving: registered, healthy, and the shard's leader or one of its followers. */
  ghost predicate Pinned(s: State, rs: ReplicaSet, session: Option<string>) {
    && session.Some? && session.value in s.sessions
    && var node := s.sessions[session.value];
       node in s.nodes && s.nodes[node].status == Healthy && (rs.leaderId == Some(node) || node in rs.followerIds)
  }

  lemma SessionRead(s: State, key: Bytes, session: Option<string>, i: nat)
    requires Inv(s) && HasKey(s, i, key)
    ensures var a, r := s.shardMap.assignments[i], RouteRead(s, key, Session, session);
      match a.replicaSet.leaderId
      case None => r == Err(ShardHasNoLeader)
      case Some(leader) =>
        var target := if Pinned(s, a.replicaSet, session) then s.sessions[session.value] else leader;
        r == Ok(ReadRoute(a.shardId, target, Session, target == leader, None))
  {
    var j := LookedUp(s, key);
  }

  /** An eventual read goes to the first follower that may serve it, else to the leader. */
  lemma EventualRead(s: State, key: Bytes, session: Option<string>, i: nat) returns (f: nat)
    requires Inv(s) && HasKey(s, i, key)
    ensures var a, r := s.shardMap.assignments[i], RouteRead(s, key, Eventual, session);
      var followers, bound := a.replicaSet.followerIds, Some(s.config.maxEventualLag);
      && f <= |followers| && (forall g :: 0 <= g < f ==> !MayServe(s, a.replicaSet, followers[g]))
      && (f < |followers| ==> MayServe(s, a.replicaSet, followers[f]))
      && match a.replicaSet.leaderId
         case None => r == Err(ShardHasNoLeader)
         case Some(leader) =>
           r == Ok(if f < |followers| then ReadRoute(a.shardId, followers[f], Eventual, false, bound)
                   else ReadRoute(a.shardId, leader, Eventual, true, bound))
  {
    var j := LookedUp(s, key);
    var rs := s.shardMap.assignments[i].replicaSet;
    f := FirstKept(rs.followerIds, Eligible(s, rs));
    forall x ensures Eligible(s, rs)(x) <==> MayServe(s, rs, x) { }
  }

  /** At every level a read says it was served by the leader exactly when it was. */
  lemma ServedByLeaderIff(s: State, key: Bytes, level: ConsistencyLevel, session: Option<string>, i: nat)
    requires Inv(s) && HasKey(s, i, key) && RouteRead(s, key, level, session).Ok?
    ensures var r := RouteRead(s, key, level, session).value;
      r.servedByLeader <==> s.shardMap.assignments[i].replicaSet.leaderId == Some(r.targetNode)
  {
    match level
    case Strong => StrongRead(s, key, session, i);
    case Session => SessionRead(s, key, session, i);
    case Eventual =>
      var f := EventualRead(s, key, session, i);
      assert ReplicaOk(s.shardMap.assignments[i].replicaSet, s.nodes.Keys);
  }

  /**
   * Strong reads over all runs. In every reachable state one shard has the key; a strong read succeeds exactly when that
   * shard has a leader, and then goes to it.
   */
  lemma StrongReadsGoToLeaders(c: Config, steps: seq<Step>, key: Bytes, session: Option<string>) returns (i: nat)
    requires Legal(c, steps)
    ensures var s := Exec(c, steps);
      && HasKey(s, i, key) && (forall j: nat :: HasKey(s, j, key) ==> j == i)
      && var a, r := s.shardMap.assignments[i], RouteRead(s, key, Strong, session);
         && (r.Ok? <==> a.replicaSet.leaderId.Some?)
         && (r.Ok? ==>
              && Some(r.value.targetNode) == a.replicaSet.leaderId && r.value.targetNode !in a.replicaSet.followerIds
              && r.value.servedByLeader && r.value.maxStalenessIndex == None && r.value.shardId == i)
  {
    ReachableInv(c, steps);
    i := LookedUp(Exec(c, steps), key);
    StrongRead(Exec(c, steps), key, session, i);
  }

  /** After a healthy reachable node wins, a strong read of any key goes to it, and it has applied the whole log. */
  lemma StrongReadAfterElection(s: State, winner: NodeId, order: seq<NodeId>, key: Bytes, session: Option<string>)
    requires Inv(s) && Up(s, winner) && IsOrder(order, s.nodes.Keys)
    ensures var t := Elect(s, winner, order);
      && RouteRead(t, key, Strong, session).Ok? && RouteRead(t, key, Strong, session).value.targetNode == winner
      && AppliedOf(t.applied, winner) == |t.log|
  {
    WhoCounts(s);
    ElectInv(s, winner, order);
    ElectedLeadsEverything(s, winner, order);
    ElectApplied(s, winner, order);
    ElectLog(s, winner, order);
    var i := LookedUp(Elect(s, winner, order), key);
    StrongRead(Elect(s, winner, order), key, session, i);
  }

  /** A session read at any level pins the session to the node it went to, and does nothing else. */
  lemma ReadSessionFacts(s: State, key: Bytes, session: string, level: ConsistencyLevel)
    ensures var r, t := RouteRead(s, key, level, Some(session)), DoReadSession(s, key, session, level);
      && (r.Ok? ==> t == s.(sessions := s.sessions[session := r.value.targetNode]))
      && (r.Err? ==> t == s)
  {
  }

  // ---------- Writes ----------

  /** A write goes to the leader of the key's shard, provided that leader is registered, not dead and not isolated. */
  lemma WriteFacts(s: State, key: Bytes, i: nat)
    requires Inv(s) && HasKey(s, i, key)
    ensures var a, r := s.shardMap.assignments[i], RouteWrite(s, key);
      match a.replicaSet.leaderId
      case None => r == Err(ShardHasNoLeader)
      case Some(leader) =>
        && leader in s.nodes
        && r == if s.nodes[leader].status != Dead && leader !in s.isolated then Ok(WriteRoute(a.shardId, leader))
                else Err(ShardLeaderUnavailable)
  {
    var j := LookedUp(s, key);
    assert ReplicaOk(s.shardMap.assignments[i].replicaSet, s.nodes.Keys);
  }

  /** Whatever the state, the first thing that is missing gives the error. */
  lemma RouteErrors(s: State, key: Bytes, level: ConsistencyLevel, session: Option<string>)
    ensures ShardForKey(s.shardMap, key) == None ==>
      RouteRead(s, key, level, session) == Err(NoShardAssignment) && RouteWrite(s, key) == Err(NoShardAssignment)
    ensures ShardForKey(s.shardMap, key).Some? && ShardForKey(s.shardMap, key).value.replicaSet.leaderId == None ==>
      RouteRead(s, key, level, session) == Err(ShardHasNoLeader) && RouteWrite(s, key) == Err(ShardHasNoLeader)
    ensures ShardForKey(s.shardMap, key).Some? ==>
      var leader := ShardForKey(s.shardMap, key).value.replicaSet.leaderId;
      leader.Some? && leader.value !in s.nodes ==> RouteWrite(s, key) == Err(LeaderNodeMissing)
  {
  }

  // ---------- Slots ----------

  function Bit(n: nat, k: nat): nat { if k == 0 then n % 2 else Bit(n / 2, k - 1) }

  /** A bit is set exactly when it is set in one of the two. */
  lemma {:induction false} XorBits(a: nat, b: nat, k: nat)
    ensures Bit(Xor(a, b), k) == 1 <==> Bit(a, k) != Bit(b, k)
    decreases k
  {
    if a == 0 && b == 0 {
      BitsOfZero(k);
    } else {
      LastBits(a, b);
      if k > 0 { XorBits(a / 2, b / 2, k - 1); }
    }
  }

  lemma LastBits(a: nat, b: nat)
    requires a > 0 || b > 0
    ensures Xor(a, b) / 2 == Xor(a / 2, b / 2) && (Xor(a, b) % 2 == 1 <==> a % 2 != b % 2)
  {
    var rest, last := Xor(a / 2, b / 2), (a % 2 + b % 2) % 2;
    assert Xor(a, b) == 2 * rest + last;
  }

  lemma {:induction false} BitsOfZero(k: nat)
    ensures Bit(0, k) == 0
  {
    if k > 0 { BitsOfZero(k - 1); }
  }

  lemma {:induction false} XorNothing(a: nat)
    ensures Xor(a, 0) == a
  {
    if a > 0 { XorNothing(a / 2); }
  }

  lemma XorStep(a: nat, b: nat)
    requires a > 0
    ensures Xor(a, b) == 2 * Xor(a / 2, b / 2) + (a % 2 + b % 2) % 2
  {
  }

  lemma XorOfA()
    ensures Xor(2166136261, 97) == 2166136228
  {
    XorNothing(16922939);
    XorStep(33845879, 1);
    XorStep(67691758, 3);
    XorStep(135383516, 6);
    XorStep(270767032, 12);
    XorStep(541534065, 24);
    XorStep(1083068130, 48);
    XorStep(2166136261, 97);
  }

  lemma FnvSnoc(key: Bytes, b: U8, x: nat)
    requires Xor(Fnv(key), b) == x
    ensures Fnv(key + [b]) == x * 16777619 % 0x1_0000_0000
  {
    assert (key + [b])[..|key|] == key;
  }

  lemma ProductOfA(x: nat)
    requires x == 2166136228
    ensures x * 16777619 % 0x1_0000_0000 == 0xE40C_292C
  {
    assert x * 16777619 == 0x1_0000_0000 * 8461672 + 0xE40C_292C;
  }

  /** Published values of the 32-bit FNV-1a hash: of nothing, and of the letter `a`. */
  lemma KnownHashes(nothing: Bytes, a: Bytes)
    requires nothing == [] && a == [97]
    ensures Fnv(nothing) == 0x811C_9DC5 && Fnv(a) == 0xE40C_292C
  {
    XorOfA();
    ProductOfA(2166136228);
    FnvSnoc(nothing, 97, 2166136228);
    assert nothing + [97] == a;
  }

  lemma RemainderWraps(a: nat, n: nat)
    requires n > 0
    ensures (a + n) % n == a % n
  {
    var q, r := a / n, a % n;
    assert a + n == (q + 1) * n + r;
    SameRemainder(a + n, n, q + 1, r);
  }

  lemma SameRemainder(a: nat, n: nat, q: nat, r: nat)
    requires n > 0 && r < n && a == q * n + r
    ensures a % n == r
  {
    var d := a / n - q;
    assert a == (a / n) * n + a % n;
    assert d * n == r - a % n;
    assert d >= 1 ==> d * n >= n;
    assert d <= -1 ==> d * n + n <= 0;
  }

  /** Slots past the last one start over, and with at most one slot all are the same. */
  lemma SlotsWrap(m: ShardMap, slot: nat)
    ensures m.slotCount > 0 ==> ShardForSlot(m, slot + m.slotCount) == ShardForSlot(m, slot)
    ensures m.slotCount == 0 ==> ShardForSlot(m, slot) == ShardForSlot(m, 0)
  {
    if m.slotCount > 0 { RemainderWraps(slot, m.slotCount); }
  }

  /** The slot of a key is its hash modulo the number of slots. */
  lemma SlotIsRemainder(key: Bytes, slotCount: nat)
    requires slotCount > 0
    ensures HashSlot(key, slotCount) == Fnv(key) % slotCount
  {
  }
}
