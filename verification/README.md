# Ontolith verification model

A Dafny 4.11 model of the parts of Ontolith whose correctness does not show in any one function body, with proofs.
`dafny verify dfyconfig.toml` checks all of it.

## What is modelled

**The cluster control plane** (`Cluster*.dfy`). Every public call of the in-process runtime is one atomic step. The
steps are functions on a state value (`ClusterSpec`), runs are lists of steps from boot, and the class
`InMemoryClusterRuntime` (`ClusterRuntime`) updates its fields with the loops of the implementation; its `Valid()` says
that the object is in the state reached by its recorded steps, so every theorem about runs holds of the object. The
iteration order of the node table is observable; each step that iterates takes that order as a parameter, and the
theorems hold for every order. Epochs saturate at the 64-bit maximum, as in the code.

**The Knowledge Object codec** (`Ko*.dfy`). `KoGrammar` gives the bytes of each container and a parser that returns what
is left over; `KoLaws` shows that each reads exactly what the other writes; `KoTheorems` draws the consequences once for
all thirteen container types; `KoCodec` is the incremental encoder and decoder, proved to compute the grammar.

**Canonical bytes** (`Canonical*.dfy`) of resources, terms, graph ids and metadata, and when they tell values apart.
`TermEquality` is the other comparison of terms, the derived one.

**The semantic index** (`Vectors`, `FlatMatrix`, `ProbeKeys`, `Buckets`, `Ranking`, `Semantic*`, `ExactIndex`,
`LshIndex`): the flat row matrix with swap-remove, the bucket table, multi-probe enumeration, top-k selection, and how
the approximate results relate to the exact scan. **The service and its upkeep** (`SemanticService`, `Reconcile*.dfy`):
the cap, batches, and the incremental and full reconciliation with the store.

**Smaller algorithms**: day numbers to dates (`CivilDate`), the tenant digest index (`Tenants`), and the query URL
(`QueryUrl`).

**WKT and GeoJSON** (`Geometry`, `Wkt*.dfy`, `Json*.dfy`, `GeoJson*.dfy`, `GeoCursor`, `NumberTokens`): the parsers
against their printers, and against grammars that say what a text means without parsing it (`WktGrammar`,
`JsonGrammar`): each parser accepts exactly the texts of its grammar.

Modules named `*Facts`, `*Layout`, `ReconcileBlank` and `ReconcileStore` say what single operations come to, in plain
terms and without the functions that define them.

## Where the code does not do what one might expect

Each is shown by a lemma named here, beside lemmas with the condition under which the expectation does hold; the lemmas
whose names end in `Iff` give the exact condition.

- After a won election or a rebalance the followers' recorded lag is one entry short, so an eventual read can exceed its
  bound by one (`ClusterStaleRuns.StaleReadAfterElection`, `ClusterStaleRuns.StaleReadAfterRebalance`; exactly when, in
  `ClusterReads.EventualReadAfterPlacement`). Elections without a healthy node add one each, so no fixed bound holds on
  all runs (`ClusterStaleRuns.StalenessIsUnbounded`; what does hold is `ClusterReads.EventualReadsAreBounded`).
- Session reads can go back, exactly as `ClusterRouting.SessionGoesBackIff` says: neither a promotion nor a placement
  looks at applied indexes (`ClusterSessionRun.SessionReadGoesBack`, `ClusterSessionRun.SessionGoesBackUnpromoted`). They
  may also go to an isolated node (`ClusterRouting.PartitionsDoNotMoveSessions`).
- The canonical length prefix keeps 32 bits, so fields of 2^32 bytes can collide (`CanonicalLimits.LongFieldsCollide`,
  `CanonicalLimits.LongLiteralsCollide`); the bound is exact (`CanonicalLimits.ToldApartIff`,
  `CanonicalLimits.ResourcesToldApartIff`).
- Terms are compared by the derived equality, in which NaN equals nothing and the two zeros are equal. One NaN literal
  can be indexed, and found, more than once and is never removed (`SemanticDomain.NaNTwice`,
  `SemanticDomain.ReplayNoDupIff`, `ReconcileGaps.NaNOutlivesItsStore`, `ReconcileFull.FromStoreNoStrangerIff`). The full
  difference decides by canonical bytes and can lose a zero (`ReconcileGaps.WrongZeroIsDropped`,
  `ReconcileFull.FromStoreCompleteIff`); the incremental path leaves out the second zero
  (`ReconcileGaps.OtherZeroStaysOut`, `ReconcileIndex.InSyncInBitsIff`).
- The cap counts repeated terms of a batch, and eviction runs after indexing, so terms can be lost although there is or
  would be room (`ReconcileGaps.RepeatsUseUpTheCap`, `ReconcileGaps.EvictionComesTooLate`); an IRI that looks like
  a blank node can stay indexed (`ReconcileGaps.PhantomLingers`); a blank node is evicted although still in use
  (`ReconcileIndex.BlankAlwaysEvicted`).
- Two tenants with one key digest: deleting the later one disables the key of the other (`Tenants.SharedDigestIsLost`).
- Decoding a URL can panic when an escape is cut inside a character (`QueryUrl.CutInsideCharacterPanics`, `QueryUrl.PanicsIff`).
- A rectangle with corners out of order prints as GeoJSON that parses to the ordered rectangle, while its WKT is
  rejected (`GeoJson.GeoJsonRoundTrip`, `Wkt.WktRoundTrip`).

## Model

| member | source | states |
|---|---|---|
| `ClusterInvariants.ReachableInv` | crates/ontolith-cluster/src/infrastructure/mod.rs:55-113 | every state reached from boot by any legal run keeps the whole invariant: node table, log, shard partition and replica sets |
| `ClusterInvariants.StepKeepsInv` | crates/ontolith-cluster/src/infrastructure/mod.rs:428-1029 | each of the twelve steps keeps the invariant |
| `ClusterInvariants.BootInv` | crates/ontolith-cluster/src/infrastructure/mod.rs:87-113 | the invariant holds at boot for every configuration and bias, zero counts included |
| `ClusterInvariants.BiasPartitioned` | crates/ontolith-cluster/src/infrastructure/mod.rs:288-301 | the boot skew moves boundaries but leaves ranges contiguous, non-empty and covering |
| `ClusterElections.NewLeaderNeedsMajority` | crates/ontolith-cluster/src/infrastructure/mod.rs:499-565 | a step installs a leader only by an election whose reachable voters are more than half of all voters, whose winner is registered, votable and reachable, and which opens the next epoch; no other step changes the leader to another node |
| `ClusterElections.ReachableVoterMajority` | crates/ontolith-cluster/src/infrastructure/mod.rs:740-803 | when the healthy reachable voters reach the failover quorum, the reachable voters are more than half of all voters |
| `ClusterElections.ElectionEpochsRise` | crates/ontolith-cluster/src/infrastructure/mod.rs:535-560 | over a whole run each election has a higher epoch than every earlier one, until the 64-bit counter saturates |
| `ClusterElections.OneElectionPerEpoch` | crates/ontolith-cluster/src/infrastructure/mod.rs:535-560 | no epoch below the counter's maximum elects two leaders |
| `ClusterElections.StepProgress` | crates/ontolith-cluster/src/infrastructure/mod.rs:660-731 | a step never lowers the epoch or an applied index, and adds at most one log entry, stamped with the new epoch |
| `ClusterElections.ReachableLog` | crates/ontolith-cluster/src/infrastructure/mod.rs:660-685 | in every reachable state entry i has index i+1, terms never fall or pass the epoch, and applied and commit indexes stay within the log |
| `ClusterElections.RecomputeGivesQuorumIndex` | crates/ontolith-cluster/src/infrastructure/mod.rs:202-228 | the recomputed commit index is backed by a majority of the counted voters and no larger index is |
| `ClusterElections.StepRecomputes` | crates/ontolith-cluster/src/infrastructure/mod.rs:202-228 | every step that recomputes leaves the largest backed index of its own voters; every other step leaves the commit index alone |
| `ClusterElections.CommitStaysBacked` | crates/ontolith-cluster/src/infrastructure/mod.rs:202-228 | over any run the commit index is 0 or still backed by a majority of the voters last counted |
| `ClusterCommit.MajorityIndexIsBacked` | crates/ontolith-cluster/src/infrastructure/mod.rs:210-227 | position n - quorum of the ascending sort reaches d exactly when a majority has applied d |
| `ClusterCommit.MajorityIsLargestBacked` | crates/ontolith-cluster/src/infrastructure/mod.rs:202-228 | sort-and-pick equals the largest majority-backed index |
| `ClusterElections.ElectedLeadsEverything` | crates/ontolith-cluster/src/infrastructure/mod.rs:157-200 | a healthy reachable winner leads every shard, and exactly the other healthy reachable nodes follow it |
| `ClusterElections.FailoverOutcome` | crates/ontolith-cluster/src/infrastructure/mod.rs:740-875 | after a failover check either quorum was missing and the leader is unchanged, or the metadata leader is registered, not dead and reachable, and so is every shard leader unless nobody healthy is reachable |
| `ClusterElections.ReachableReplicaSets` | crates/ontolith-cluster/src/infrastructure/mod.rs:157-200 | in every reachable state a shard's leader is not among its followers, and followers are distinct registered nodes |
| `ClusterShards.OneShardPerSlot` | crates/ontolith-cluster/src/domain/mod.rs:199-210 | a partition holds every slot in exactly one shard, and the lookup returns that shard |
| `ClusterShards.EveryKeyHasOneShard` | crates/ontolith-cluster/src/domain/mod.rs:206-220 | in every reachable state every key routes to exactly one shard, the one whose range holds its slot |
| `ClusterDomain.ComputeHashSlot` | crates/ontolith-cluster/src/domain/mod.rs:213-220 | the running 32-bit hash is reduced to a slot below the slot count, for zero slots too |
| `ClusterShards.ReplayPlans` | crates/ontolith-cluster/src/infrastructure/mod.rs:894-912 | replaying the first k plans turns the first k ranges into the new ones and no other |
| `ClusterShards.PlansReplayToNewMap` | crates/ontolith-cluster/src/infrastructure/mod.rs:884-933 | carrying out all returned plans on the old ranges gives the new shard map's ranges, which are the even ones |
| `ClusterShards.PlansExactlyWhenUneven` | crates/ontolith-cluster/src/infrastructure/mod.rs:894-912 | a rebalance returns no plan exactly when every range is already even |
| `ClusterShards.SecondRebalanceIsIdle` | crates/ontolith-cluster/src/infrastructure/mod.rs:884-933 | a second rebalance right after the first has nothing to move |
| `ClusterReads.DebtBoundsLag` | crates/ontolith-cluster/src/infrastructure/mod.rs:157-256 | in every reachable state recorded lags fall short of the true ones by at most the debt of the run: 0 at boot, after a refresh or a placing registration, 1 after an election or rebalance that places replica sets, one more after one that finds no healthy node |
| `ClusterReads.FreshRunsHaveNoDebt` | crates/ontolith-cluster/src/infrastructure/mod.rs:246-256 | until an election or rebalance follows the last refresh the debt is 0 |
| `ClusterReads.EventualReadsAreBounded` | crates/ontolith-cluster/src/infrastructure/mod.rs:396-416 | in every reachable state a follower chosen for an eventual read is healthy, reachable and behind by at most the configured limit and the debt of the run |
| `ClusterReads.ElectionOffByOne` | crates/ontolith-cluster/src/infrastructure/mod.rs:535-560 | right after a won election every follower has a recorded lag, exactly one less than the true one |
| `ClusterReads.RebalanceOffByOne` | crates/ontolith-cluster/src/infrastructure/mod.rs:913-926 | the same right after a rebalance, with or without a leader |
| `ClusterReads.PlacedRunsAreShort` | crates/ontolith-cluster/src/infrastructure/mod.rs:396-416 | every recorded lag stays exactly one short over all further steps that touch no lag, applied index or log entry |
| `ClusterReads.EventualReadAfterPlacement` | crates/ontolith-cluster/src/infrastructure/mod.rs:396-416 | in every such reachable state an eventual read keeps its bound exactly when the chosen follower's recorded lag is strictly below the limit, and never misses it by more than one |
| `ClusterReads.UnhealthyElectionFreezesLag` | crates/ontolith-cluster/src/infrastructure/mod.rs:157-200 | an election with no healthy reachable node leaves recorded lags as they were while the log grows |
| `ClusterStaleRuns.StalenessIsUnbounded` | crates/ontolith-cluster/src/infrastructure/mod.rs:396-416 | so for every k some run ends with an eventual read that goes to a follower k entries further behind than its limit |
| `ClusterStaleRuns.StaleReadAfterElection` | crates/ontolith-cluster/src/infrastructure/mod.rs:396-416 | a concrete three-step run after which an eventual read goes to a follower one entry too far behind |
| `ClusterStaleRuns.StaleReadAfterRebalance` | crates/ontolith-cluster/src/infrastructure/mod.rs:884-933 | the same after a rebalance, although every follower was up to date before it |
| `ClusterRouting.SessionReadsAreSticky` | crates/ontolith-cluster/src/infrastructure/mod.rs:618-632 | repeated reads of a session go to the node that served it while that node stays healthy and a member of the key's shard, across any steps in between, and to the shard's leader otherwise |
| `ClusterRouting.PartitionsDoNotMoveSessions` | crates/ontolith-cluster/src/infrastructure/mod.rs:368-392 | no partition moves a session read, so it can go to an isolated node |
| `ClusterRouting.ElectionFallback` | crates/ontolith-cluster/src/infrastructure/mod.rs:535-560 | a session that moves because of an election goes to a node that has applied everything |
| `ClusterRouting.SessionGoesBackIff` | crates/ontolith-cluster/src/infrastructure/mod.rs:618-632 | over any steps in between, the second read of a session goes to a node that has applied less than the first had exactly when the first node is no longer healthy or no longer a member of the key's shard and the shard's leader has applied less |
| `ClusterRouting.PromotionFallback` | crates/ontolith-cluster/src/infrastructure/mod.rs:805-865 | after a failover check that replaces the shard leader while the session's node is unhealthy, the session goes to the successor, and goes back exactly when that has applied less |
| `ClusterSessionRun.SessionReadGoesBack` | crates/ontolith-cluster/src/infrastructure/mod.rs:818-838 | a concrete run on which the second read of a session is served by a node that has applied less than the first |
| `ClusterSessionRun.SessionGoesBackUnpromoted` | crates/ontolith-cluster/src/infrastructure/mod.rs:157-200 | another one without any failover check: a registration moves the lead and the first node falls suspect |
| `ClusterRouting.SessionStaysPinned` | crates/ontolith-cluster/src/infrastructure/mod.rs:618-632 | no other step moves a session's pinned node |
| `ClusterRouting.FailoverRestoresWrites` | crates/ontolith-cluster/src/infrastructure/mod.rs:583-608 | when a failover check ends with every shard led, writes of every key are routed |
| `ClusterFacts.LeaderStays` | crates/ontolith-cluster/src/infrastructure/mod.rs:520-533 | while the leader is registered, healthy and not isolated, a campaign by another eligible node returns that leader and changes nothing |
| `ClusterFacts.CampaignElectsIff` | crates/ontolith-cluster/src/infrastructure/mod.rs:499-565 | an eligible node becomes leader in the next epoch exactly when the reachable voters are a non-empty majority of the voters and no other node is a registered, healthy, reachable leader |
| `ClusterFacts.CampaignRefusals` | crates/ontolith-cluster/src/infrastructure/mod.rs:499-533 | every other campaign: who is refused and with what result, nothing being changed |
| `ClusterFacts.ElectRoles` | crates/ontolith-cluster/src/infrastructure/mod.rs:535-560 | an election makes the winner leader, keeps learners learners, and makes every other node follow |
| `ClusterFacts.StepDownFacts` | crates/ontolith-cluster/src/infrastructure/mod.rs:567-574 | only the leader named steps down, and then nobody leads |
| `ClusterFacts.RegisterFacts` | crates/ontolith-cluster/src/infrastructure/mod.rs:462-471 | a registration replaces the node's record, keeps what it had applied and touches no entry and no leader |
| `ClusterFacts.HeartbeatFacts` | crates/ontolith-cluster/src/infrastructure/mod.rs:473-483 | a heartbeat notes its tick and heals a known node unless it is dead; the clock never goes back |
| `ClusterFacts.LivenessFacts` | crates/ontolith-cluster/src/infrastructure/mod.rs:230-244 | a node becomes dead, suspect or healthy by the ticks since its last heartbeat |
| `ClusterFacts.AppendFacts` | crates/ontolith-cluster/src/infrastructure/mod.rs:660-685 | an append adds one entry in the current epoch, applied by the leader, and nothing without a reachable leader |
| `ClusterFacts.ReplicateFacts` | crates/ontolith-cluster/src/infrastructure/mod.rs:704-731 | replication brings exactly the healthy reachable voters other than the leader to the end of the log |
| `ClusterRouteFacts.StrongReadsGoToLeaders` | crates/ontolith-cluster/src/infrastructure/mod.rs:351-395 | in every reachable state a strong read of a key succeeds exactly when the one shard that holds its slot has a leader, and goes to that leader, never a follower |
| `ClusterRouteFacts.StrongReadAfterElection` | crates/ontolith-cluster/src/infrastructure/mod.rs:535-560 | after a healthy reachable node wins, a strong read of any key goes to it, and it has applied the whole log |
| `ClusterRouteFacts.EventualRead` | crates/ontolith-cluster/src/infrastructure/mod.rs:396-416 | an eventual read goes to the first follower that is healthy, reachable and recorded within the limit, else to the leader |
| `ClusterRouteFacts.SessionRead` | crates/ontolith-cluster/src/infrastructure/mod.rs:371-395 | a session read goes to the pinned node while it is healthy and a member, else to the leader |
| `ClusterRouteFacts.ServedByLeaderIff` | crates/ontolith-cluster/src/infrastructure/mod.rs:351-426 | at every level a read says it was served by the leader exactly when its target is the shard's leader |
| `ClusterRouteFacts.ReadSessionFacts` | crates/ontolith-cluster/src/infrastructure/mod.rs:618-632 | a session read pins the session to its target and does nothing else |
| `ClusterRouteFacts.WriteFacts` | crates/ontolith-cluster/src/infrastructure/mod.rs:583-608 | a write goes to the shard's leader while that is registered, not dead and not isolated, and fails otherwise |
| `ClusterRouteFacts.RouteErrors` | crates/ontolith-cluster/src/infrastructure/mod.rs:583-608 | in whatever state, the first thing that is missing gives the error: the shard, its leader, the leader's node |
| `ClusterRouteFacts.KnownHashes` | crates/ontolith-cluster/src/domain/mod.rs:213-220 | the hash of nothing and of the letter a are the published 32-bit FNV-1a values |
| `ClusterPlaceFacts.EvenWidths` | crates/ontolith-cluster/src/infrastructure/mod.rs:259-283 | every shard but the last has the rounded-down share of the slots, and the last has what is left |
| `ClusterPlaceFacts.BiasMoves` | crates/ontolith-cluster/src/infrastructure/mod.rs:288-301 | the boot skew moves every inner boundary right by the bias, or by as much as leaves the last shard one slot |
| `ClusterPlaceFacts.PlacementFacts` | crates/ontolith-cluster/src/infrastructure/mod.rs:157-200 | which node leads shard i after a placement and who follows it, in table order |
| `ClusterPlaceFacts.RebalanceFacts` | crates/ontolith-cluster/src/infrastructure/mod.rs:884-933 | a rebalance gives even ranges under the next epoch, one log entry about it that the leader has applied, and the plans on record |
| `ClusterPlaceFacts.ReplicationGain` | crates/ontolith-cluster/src/infrastructure/mod.rs:704-731 | the number that replication returns is what the applied indexes gain, all in all |
| `ClusterPlaceFacts.StandingLeaderFacts` | crates/ontolith-cluster/src/infrastructure/mod.rs:805-865 | while the metadata leader stands, a failover check changes only shard leaders that are gone, each to the first follower that is up |
| `ClusterPlaceFacts.LostLeaderFacts` | crates/ontolith-cluster/src/infrastructure/mod.rs:740-803 | when it is gone, the first voter that is up is elected if a majority of the voters is up, and nothing changes otherwise |
| `ClusterPlaceFacts.StandingLeaderEvents` | crates/ontolith-cluster/src/infrastructure/mod.rs:805-865 | one event for each replaced shard leader, in order |
| `ClusterPlaceFacts.ElectionEventFacts` | crates/ontolith-cluster/src/infrastructure/mod.rs:780-803 | one event for each shard, naming the lost leader and who leads the shard now |
| `ClusterRuntime.MakeEvenAssignments` | crates/ontolith-cluster/src/infrastructure/mod.rs:259-283 | the counted loop builds the even assignments |
| `ClusterRuntime.ApplyInitialSlotBias` | crates/ontolith-cluster/src/infrastructure/mod.rs:288-301 | the boundary loop produces the skewed ranges, saturating at 32 bits |
| `ClusterRuntime.InMemoryClusterRuntime.constructor` | crates/ontolith-cluster/src/infrastructure/mod.rs:308-312 | a new runtime is in the boot state |
| `ClusterRuntime.InMemoryClusterRuntime.DoRecomputeCommitIndex` | crates/ontolith-cluster/src/infrastructure/mod.rs:202-228 | collect, sort and pick computes the largest backed index |
| `ClusterRuntime.InMemoryClusterRuntime.DoRebalanceReplicaSets` | crates/ontolith-cluster/src/infrastructure/mod.rs:157-200 | the loop over shards reassigns replica sets from the healthy reachable nodes in table order |
| `ClusterRuntime.InMemoryClusterRuntime.DoUpdateLiveness` | crates/ontolith-cluster/src/infrastructure/mod.rs:230-244 | the loop over nodes judges each by its heartbeat age |
| `ClusterRuntime.InMemoryClusterRuntime.DoRefreshLag` | crates/ontolith-cluster/src/infrastructure/mod.rs:246-256 | recorded lags become the true ones |
| `ClusterRuntime.InMemoryClusterRuntime.RegisterNode` | crates/ontolith-cluster/src/infrastructure/mod.rs:462-471 | one register step of the run, whole new state |
| `ClusterRuntime.InMemoryClusterRuntime.Heartbeat` | crates/ontolith-cluster/src/infrastructure/mod.rs:473-483 | one heartbeat step; a dead node stays dead |
| `ClusterRuntime.InMemoryClusterRuntime.SetNodeStatus` | crates/ontolith-cluster/src/infrastructure/mod.rs:485-495 | one status step |
| `ClusterRuntime.InMemoryClusterRuntime.RunCampaign` | crates/ontolith-cluster/src/infrastructure/mod.rs:499-565 | one campaign step and its result, refusals included |
| `ClusterRuntime.InMemoryClusterRuntime.StepDownLeader` | crates/ontolith-cluster/src/infrastructure/mod.rs:567-574 | one step-down step |
| `ClusterRuntime.InMemoryClusterRuntime.AppendEntry` | crates/ontolith-cluster/src/infrastructure/mod.rs:660-685 | one append step; fails exactly when there is no leader or it is isolated |
| `ClusterRuntime.InMemoryClusterRuntime.ReplicateToFollowers` | crates/ontolith-cluster/src/infrastructure/mod.rs:704-731 | one replication step; returns the total number of entries the followers were short of |
| `ClusterRuntime.InMemoryClusterRuntime.CheckAndFailover` | crates/ontolith-cluster/src/infrastructure/mod.rs:740-875 | one failover check: new state and returned events |
| `ClusterRuntime.InMemoryClusterRuntime.RebalanceSlots` | crates/ontolith-cluster/src/infrastructure/mod.rs:884-933 | one rebalance step and its plans |
| `ClusterRuntime.InMemoryClusterRuntime.InjectPartition` | crates/ontolith-cluster/src/infrastructure/mod.rs:1003-1008 | one partition step |
| `ClusterRuntime.InMemoryClusterRuntime.HealPartition` | crates/ontolith-cluster/src/infrastructure/mod.rs:1010-1015 | a partition step that isolates nobody |
| `ClusterRuntime.InMemoryClusterRuntime.Tick` | crates/ontolith-cluster/src/infrastructure/mod.rs:1023-1028 | a liveness update followed by a failover check |
| `ClusterRuntime.InMemoryClusterRuntime.RouteWriteKey` | crates/ontolith-cluster/src/infrastructure/mod.rs:583-608 | the write route or the error, by the shard leader's state |
| `ClusterRuntime.InMemoryClusterRuntime.RouteReadKey` | crates/ontolith-cluster/src/infrastructure/mod.rs:351-426 | the read route at each consistency level |
| `ClusterRuntime.InMemoryClusterRuntime.RouteReadForSession` | crates/ontolith-cluster/src/infrastructure/mod.rs:618-632 | the read route, and the session pinned to its target |
| `ClusterRuntime.InMemoryClusterRuntime.Bootstrap` | crates/ontolith-cluster/src/infrastructure/mod.rs:334-349 | the run gains one register step for each node, one heartbeat for each node and a campaign for the first, whose outcome in the state before it decides the result: its winner, an earlier leader, or one of the errors; no nodes is an error |
| `KoTheorems.EveryFormatLawful` | crates/ontolith-core/src/domain/serialization.rs:157-503 | each of the thirteen container types reads exactly what it writes and writes exactly what it reads |
| `KoTheorems.DecodeIff` | crates/ontolith-core/src/domain/serialization.rs:132-137 | decoding accepts exactly the bytes of some acceptable value written out as it stands, and returns that value |
| `KoTheorems.RoundTrip` | crates/ontolith-core/src/domain/serialization.rs:125-137 | decode after encode gives the value with its labels sorted, and fails exactly for a bad id or IRI |
| `KoTheorems.ReadIsLocal` | crates/ontolith-core/src/domain/serialization.rs:59-115 | a successful read consumes the same bytes and returns the same value whatever follows, although two guards look at what remains |
| `KoTheorems.RejectsTruncation` | crates/ontolith-core/src/domain/serialization.rs:59-137 | of a byte string and any proper extension of it at most one decodes |
| `KoTheorems.EncodingIsSelfDelimiting` | crates/ontolith-core/src/domain/serialization.rs:59-137 | every proper prefix and every proper extension of a valid encoding is rejected |
| `KoTheorems.EncodeEqualIff` | crates/ontolith-core/src/domain/serialization.rs:125-130 | two values encode equally exactly when their canonical forms are equal |
| `KoTheorems.ReencodeIff` | crates/ontolith-core/src/domain/serialization.rs:125-137 | encoding what was decoded reproduces the input exactly when its labels were in order |
| `KoTheorems.DatasetsEncodeEqually` | crates/ontolith-core/src/domain/serialization.rs:360-392 | two datasets encode equally exactly when they agree up to label order, in every graph |
| `KoTheorems.GraphsEncodeEqually` | crates/ontolith-core/src/domain/serialization.rs:342-358 | two graphs encode equally exactly when they agree up to label order |
| `KoTheorems.OntologiesEncodeEqually` | crates/ontolith-core/src/domain/serialization.rs:414-434 | two ontologies encode equally exactly when their datasets agree up to label order and their graph links are equal |
| `KoTheorems.MetadataEncodesEqually` | crates/ontolith-core/src/domain/serialization.rs:274-285 | metadata encodes equally exactly when the label bags are equal |
| `KoLaws.LabelsRead` | crates/ontolith-core/src/domain/serialization.rs:287-299 | reading written metadata succeeds: the count guard never rejects an encoding |
| `KoLaws.DatasetRead` | crates/ontolith-core/src/domain/serialization.rs:371-391 | reading a written dataset gives it back and stops after it, count guard included |
| `KoLaws.DatasetExact` | crates/ontolith-core/src/domain/serialization.rs:371-391 | whatever is read as a dataset is what the writer writes for it |
| `KoLaws.ListRead` | crates/ontolith-core/src/domain/serialization.rs:360-392 | a counted list reads back element by element, and fails when an element does |
| `KoLaws.ListExact` | crates/ontolith-core/src/domain/serialization.rs:360-392 | whatever is read as a counted list is what is written for it |
| `KoTypes.CanonDatasetIff` | crates/ontolith-core/src/domain/serialization.rs:274-285 | canonical datasets are equal exactly when the datasets agree up to label order |
| `Text.LEOfFromLE` | crates/ontolith-core/src/domain/serialization.rs:69-72 | eight little-endian bytes and the number they denote determine each other |
| `KoCodec.Encoder.WriteStr` | crates/ontolith-core/src/domain/serialization.rs:38-45 | appends the length and the bytes |
| `KoCodec.Decoder.Take` | crates/ontolith-core/src/domain/serialization.rs:105-114 | takes exactly the asked bytes or fails and moves nothing |
| `KoCodec.Decoder.ReadU64` | crates/ontolith-core/src/domain/serialization.rs:69-72 | reads eight little-endian bytes |
| `KoCodec.Decoder.ReadStr` | crates/ontolith-core/src/domain/serialization.rs:74-90 | reads a length-prefixed string, with the bounds and UTF-8 failures |
| `KoCodec.Decoder.Finish` | crates/ontolith-core/src/domain/serialization.rs:96-103 | fails exactly when bytes are left |
| `KoCodec.CheckIri` | crates/ontolith-core/src/domain/resource.rs:24-40 | the scan accepts exactly non-empty text without ASCII white space that has a colon |
| `KoCodec.EncodeHeader` | crates/ontolith-core/src/domain/serialization.rs:252-260 | appends the header's bytes |
| `KoCodec.DecodeHeader` | crates/ontolith-core/src/domain/serialization.rs:262-271 | reads a header as the grammar does |
| `KoCodec.EncodeMetadata` | crates/ontolith-core/src/domain/serialization.rs:275-285 | sorts the labels and appends them with their count |
| `KoCodec.DecodeMetadata` | crates/ontolith-core/src/domain/serialization.rs:287-299 | the counted loop reads labels as the grammar does |
| `KoCodec.EncodeGraph` | crates/ontolith-core/src/domain/serialization.rs:342-348 | appends a graph's bytes |
| `KoCodec.DecodeGraph` | crates/ontolith-core/src/domain/serialization.rs:350-357 | reads a graph as the grammar does |
| `KoCodec.EncodeDataset` | crates/ontolith-core/src/domain/serialization.rs:361-369 | appends a dataset's bytes, named graphs in order |
| `KoCodec.DecodeDataset` | crates/ontolith-core/src/domain/serialization.rs:371-391 | reads a dataset, count guard and counted loop included |
| `KoCodec.EncodeKoHeader` | crates/ontolith-core/src/domain/serialization.rs:125-130 | the header encoder computes the specified bytes |
| `KoCodec.DecodeKoHeader` | crates/ontolith-core/src/domain/serialization.rs:132-137 | the header decoder computes the specified result |
| `KoCodec.EncodeKoMetadata` | crates/ontolith-core/src/domain/serialization.rs:274-285 | the metadata encoder computes the specified bytes |
| `KoCodec.DecodeKoMetadata` | crates/ontolith-core/src/domain/serialization.rs:287-299 | the metadata decoder computes the specified result |
| `KoCodec.EncodeKoGraph` | crates/ontolith-core/src/domain/serialization.rs:341-348 | the graph encoder computes the specified bytes |
| `KoCodec.DecodeKoGraph` | crates/ontolith-core/src/domain/serialization.rs:350-358 | the graph decoder computes the specified result |
| `KoCodec.EncodeKoDataset` | crates/ontolith-core/src/domain/serialization.rs:125-130 | the whole-object encoder computes the specified bytes |
| `KoCodec.DecodeKoDataset` | crates/ontolith-core/src/domain/serialization.rs:132-137 | the whole-object decoder computes the specified result |
| `KoCodec.EncodeKoOntology` | crates/ontolith-core/src/domain/serialization.rs:414-422 | the ontology encoder computes the specified bytes |
| `KoCodec.DecodeKoOntology` | crates/ontolith-core/src/domain/serialization.rs:424-433 | the ontology decoder computes the specified result |
| `KoCodec.EncodeKoRule` | crates/ontolith-core/src/domain/serialization.rs:436-447 | the rule encoder computes the specified bytes |
| `KoCodec.DecodeKoRule` | crates/ontolith-core/src/domain/serialization.rs:449-466 | the rule decoder computes the specified result |
| `KoCodec.EncodeKoVersion` | crates/ontolith-core/src/domain/serialization.rs:469-481 | the version encoder computes the specified bytes |
| `KoCodec.DecodeKoVersion` | crates/ontolith-core/src/domain/serialization.rs:483-502 | the version decoder computes the specified result |
| `KoLayout.NumberBytes` | crates/ontolith-core/src/domain/serialization.rs:34-36 | numbers are eight bytes, least significant first |
| `KoLayout.TagsAre` | crates/ontolith-core/src/domain/serialization.rs:168-249 | each object type and state is its position in the list of them, and any other byte is an unknown tag |
| `KoLayout.TextErrors` | crates/ontolith-core/src/domain/serialization.rs:69-115 | which error a text gives that is cut short, too long for what is left, or not UTF-8 |
| `KoLayout.NameErrors` | crates/ontolith-core/src/domain/resource.rs:24-40 | which ids and IRIs are refused, and with what error |
| `KoLayout.CountErrors` | crates/ontolith-core/src/domain/serialization.rs:287-299 | more labels than bytes are left is an error of its own |
| `CanonicalSpec.ResourceBytesIff` | crates/ontolith-core/src/domain/resource.rs:469-477 | IRIs and blank labels of any length, and literals whose value and datatype stay below 2^32 bytes, have equal canonical bytes exactly when they are equal |
| `CanonicalSpec.ValuePrefixFree` | crates/ontolith-core/src/domain/resource.rs:342-381 | a literal value's bytes followed by anything determine the value and what follows |
| `CanonicalSpec.LiteralInjective` | crates/ontolith-core/src/domain/resource.rs:426-437 | literals with equal bytes are equal, optional language suffix included |
| `CanonicalSpec.TermBytesIff` | crates/ontolith-rdf/src/domain/term.rs:52-70 | object terms have equal bytes exactly when they are equal; only the first field of a tagged or typed literal must stay below 2^32 bytes |
| `CanonicalSpec.GraphIdBytesIff` | crates/ontolith-core/src/domain/knowledge.rs:73-83 | graph ids of any length have equal bytes exactly when they are equal |
| `CanonicalSpec.IntegerTextInjective` | crates/ontolith-core/src/domain/resource.rs:359-362 | decimal integers are equal when their text is |
| `CanonicalSpec.MetadataBytesIff` | crates/ontolith-core/src/domain/knowledge.rs:41-53 | metadata bytes are equal exactly when the label bags are |
| `CanonicalSpec.FieldPrefixFree` | crates/ontolith-core/src/domain/canonical.rs:39-43 | a length-prefixed field determines its content and what follows, below 2^32 bytes |
| `CanonicalLayout.DigitsDenote` | crates/ontolith-core/src/domain/resource.rs:359-362 | the decimal text of a number denotes it |
| `CanonicalLimits.LongFieldsCollide` | crates/ontolith-core/src/domain/canonical.rs:39-43 | two different typed literals with accepted IRIs, one text of 2^32 bytes, that share their canonical bytes |
| `CanonicalLimits.ToldApartIff` | crates/ontolith-core/src/domain/canonical.rs:39-43 | accepted terms whose first field is below B bytes are told apart by their bytes exactly when B is at most 2^32 |
| `CanonicalLimits.LongLiteralsCollide` | crates/ontolith-core/src/domain/resource.rs:426-437 | two different accepted literal resources that share their canonical bytes, no field longer than 2^32 bytes |
| `CanonicalLimits.ResourcesToldApartIff` | crates/ontolith-core/src/domain/resource.rs:469-477 | accepted resources whose literal value and datatype fields are below B bytes are told apart by their bytes exactly when B is at most 2^32 |
| `Canonical.CanonicalWriter.WriteBytes` | crates/ontolith-core/src/domain/canonical.rs:39-43 | appends the 32-bit length and the bytes |
| `Canonical.WriteLiteral` | crates/ontolith-core/src/domain/resource.rs:426-437 | appends a literal's canonical bytes |
| `Canonical.WriteMetadata` | crates/ontolith-core/src/domain/knowledge.rs:41-53 | sorts the pairs and appends them |
| `Canonical.CanonicalBytes` | crates/ontolith-core/src/domain/canonical.rs:73-77 | a fresh writer ends with exactly the term's bytes |
| `Canonical.CanonicalResourceBytes` | crates/ontolith-core/src/domain/canonical.rs:73-77 | a fresh writer ends with exactly the resource's bytes |
| `ProbeKeys.BallIff` | crates/ontolith-ai/src/infrastructure/approx.rs:119-156 | the probe list holds exactly the keys of the given bits within the given Hamming distance |
| `ProbeKeys.BallNoDup` | crates/ontolith-ai/src/infrastructure/approx.rs:119-156 | each key is probed once |
| `ProbeKeys.BallCount` | crates/ontolith-ai/src/infrastructure/approx.rs:119-156 | the number of probes is the sum of C(bits, d) for d up to the radius |
| `ProbeKeys.KeysFromIff` | crates/ontolith-ai/src/infrastructure/approx.rs:135-151 | the backtracking at one depth reaches exactly the keys that differ in that many positions |
| `ProbeKeys.ProbeWalk.Combos` | crates/ontolith-ai/src/infrastructure/approx.rs:135-151 | the recursion with its pushed and popped combination emits those keys in order and restores the combination |
| `ProbeKeys.Probe` | crates/ontolith-ai/src/infrastructure/approx.rs:119-156 | the whole enumeration is the list characterized above |
| `Vectors.DotConst` | crates/ontolith-ai/src/infrastructure/mod.rs:167-189 | four accumulators and a tail compute the plain dot product |
| `Vectors.DotRuntime` | crates/ontolith-ai/src/infrastructure/mod.rs:194-211 | chunks of four and a remainder compute the plain dot product |
| `Vectors.DotValues` | crates/ontolith-ai/src/domain/mod.rs:75-99 | the embedding product is the plain dot product |
| `FlatMatrix.HoldsPush` | crates/ontolith-ai/src/infrastructure/approx.rs:177-179 | appending a row keeps row i at position i times the dimension |
| `FlatMatrix.HoldsSwapRemove` | crates/ontolith-ai/src/infrastructure/approx.rs:187-196 | copying the last row over the removed one and truncating leaves exactly the swap-removed rows |
| `Buckets.EachRowOnce` | crates/ontolith-ai/src/infrastructure/approx.rs:158-163 | each row index sits once in the bucket of its hash and nowhere else |
| `LshIndex.StoredRowOnce` | crates/ontolith-ai/src/infrastructure/approx.rs:158-197 | in every stored state row i is the embedding of entry i, and i is once in the bucket of its hash |
| `TermEquality.SameIsEquality` | crates/ontolith-rdf/src/domain/term.rs:13-18 | the derived comparison of terms is symmetric and transitive, and a term equals itself exactly when it is not NaN |
| `TermEquality.SameBitsIff` | crates/ontolith-core/src/domain/resource.rs:216-241 | equal terms differ in bits exactly when they are the two zeros of one type |
| `TermEquality.IsNaNIff` | crates/ontolith-core/src/domain/resource.rs:216-241 | a term is NaN exactly when its exponent bits are all 1 and its fraction is not 0 |
| `SemanticDomain.RemoveTakesOne` | crates/ontolith-ai/src/infrastructure/mod.rs:260-270 | swap-remove takes out exactly the one equal entry and keeps the rest; a NaN takes out nothing |
| `SemanticDomain.ReplayIsMap` | crates/ontolith-ai/src/infrastructure/mod.rs:244-270 | any run of upserts and removes leaves pairwise unequal entries: exactly the terms upserted and not removed since, each with the bits it was first upserted with |
| `SemanticDomain.NaNsPileUp` | crates/ontolith-ai/src/infrastructure/mod.rs:244-270 | a NaN is held as often as it was upserted, whatever was removed |
| `SemanticDomain.ReplayNoDupIff` | crates/ontolith-ai/src/infrastructure/mod.rs:244-270 | no bits are held twice exactly when no NaN was upserted twice |
| `SemanticDomain.NaNTwice` | crates/ontolith-ai/src/infrastructure/mod.rs:244-270 | upserting one NaN literal twice and removing it leaves two entries |
| `ExactIndex.InMemorySemanticIndex.Upsert` | crates/ontolith-ai/src/infrastructure/mod.rs:245-258 | adds the term unless an equal one is there, or fails and changes nothing |
| `ExactIndex.InMemorySemanticIndex.Remove` | crates/ontolith-ai/src/infrastructure/mod.rs:260-270 | removes the first equal entry if there is one, matrix and entries in step |
| `ExactIndex.InMemorySemanticIndex.Search` | crates/ontolith-ai/src/infrastructure/mod.rs:288-332 | the best min(clamp(k, 1, 100), n) positions, none twice, each hit with its entry and its own score, best first; the empty and mismatched cases |
| `LshIndex.LshSemanticIndex.constructor` | crates/ontolith-ai/src/infrastructure/approx.rs:75-96 | bits and probes are clamped and the empty index is stored correctly |
| `LshIndex.LshSemanticIndex.HashRow` | crates/ontolith-ai/src/infrastructure/approx.rs:103-116 | sets bit b exactly when the row is on the non-negative side of plane b |
| `LshIndex.LshSemanticIndex.RebuildBuckets` | crates/ontolith-ai/src/infrastructure/approx.rs:158-163 | rehashing every row gives the right bucket table |
| `LshIndex.LshSemanticIndex.Upsert` | crates/ontolith-ai/src/infrastructure/approx.rs:167-185 | adds the term with its row and bucket entry unless an equal one is there, or fails and changes nothing |
| `LshIndex.LshSemanticIndex.Remove` | crates/ontolith-ai/src/infrastructure/approx.rs:187-197 | removes the first equal entry and leaves entries, matrix and buckets in step |
| `LshIndex.LshSemanticIndex.Search` | crates/ontolith-ai/src/infrastructure/approx.rs:215-271 | the best min(clamp(k, 1, 100), n) positions of the candidate pool, none twice, each hit with its entry and its own score, best first |
| `LshIndex.LshSemanticIndex.Gather` | crates/ontolith-ai/src/infrastructure/approx.rs:230-243 | the candidates are exactly the entries within the probe radius, each once |
| `LshIndex.LshNeverBeatsExact` | crates/ontolith-ai/src/infrastructure/approx.rs:215-271 | rank by rank the approximate scores never beat the exact ones, and there are as many |
| `LshIndex.LshIsExactIff` | crates/ontolith-ai/src/infrastructure/approx.rs:215-271 | the score lists are equal exactly when the pool holds everything above the last true score and enough at it |
| `LshIndex.LshExactCases` | crates/ontolith-ai/src/infrastructure/approx.rs:227-246 | they are equal for a small index, a thin pool, or a pool that holds some exact best choice |
| `LshFacts.HashBits` | crates/ontolith-ai/src/infrastructure/approx.rs:103-116 | bit b of a key says on which side of plane b the row is |
| `LshFacts.NearIff` | crates/ontolith-ai/src/infrastructure/approx.rs:119-155 | an entry is near exactly when at most the probed number of planes run between it and the query |
| `LshFacts.PoolIff` | crates/ontolith-ai/src/infrastructure/approx.rs:227-246 | only the near entries are scored when the index is not small and enough are near, and otherwise all |
| `Ranking.PoolMatchesIff` | crates/ontolith-ai/src/infrastructure/approx.rs:247-271 | the best of a pool score like the best of everything exactly when the pool covers them |
| `Ranking.PoolNeverBeats` | crates/ontolith-ai/src/infrastructure/approx.rs:247-271 | a pool never beats what it was drawn from, at any rank |
| `Ranking.TakeBest` | crates/ontolith-ai/src/infrastructure/approx.rs:260-263 | partial selection, sort and truncate give the head of the full ranking, ties open |
| `SemanticSearch.BestDescends` | crates/ontolith-ai/src/infrastructure/approx.rs:260-271 | results are as many as asked for and in descending score |
| `SemanticSearch.HitsApart` | crates/ontolith-ai/src/infrastructure/mod.rs:325-332 | no two hits are equal terms |
| `SemanticSearch.HitsRepeatIff` | crates/ontolith-ai/src/infrastructure/mod.rs:325-332 | a search for everything returns the same bits twice exactly when the index holds them twice |
| `SemanticService.UpsertMany` | crates/ontolith-ai/src/domain/mod.rs:119-131 | adds the absent terms in order and stops at the first that is neither there by then nor embeddable; returns how many it added, or that term's error |
| `SemanticService.RemoveMany` | crates/ontolith-ai/src/domain/mod.rs:134-145 | removes the present terms; counts what it removed |
| `SemanticService.SemanticSearchService.Index` | crates/ontolith-ai/src/application/mod.rs:86-91 | indexes one term unless the cap is reached, and returns the upsert's result |
| `SemanticService.SemanticSearchService.IndexTerms` | crates/ontolith-ai/src/application/mod.rs:95-108 | takes the first absent terms that fit under the cap, repeats included, upserts them and returns the batch's result |
| `SemanticService.UpsertAllIs` | crates/ontolith-ai/src/domain/mod.rs:119-131 | a batch that goes through lists its terms beside the old ones and nothing else |
| `SemanticService.RemoveAllIs` | crates/ontolith-ai/src/domain/mod.rs:134-145 | removing a batch leaves exactly the entries that equal none of its terms |
| `SemanticService.SemanticSearchService.RemoveTerms` | crates/ontolith-ai/src/application/mod.rs:116-118 | removes the terms and counts them |
| `SemanticService.CapHolds` | crates/ontolith-ai/src/application/mod.rs:95-108 | the cap holds through any batch, and indexing keeps what was there |
| `SemanticService.RoomForAll` | crates/ontolith-ai/src/application/mod.rs:95-108 | with room for every absent term, repeats counted, nothing is cut off |
| `SemanticFacts.ScoreIsLinear` | crates/ontolith-ai/src/infrastructure/mod.rs:168-215 | a score is linear in the entry's embedding |
| `SemanticFacts.ScoreAlongAxis` | crates/ontolith-ai/src/infrastructure/mod.rs:168-215 | and along an axis the query's own coordinate, so it is the dot product |
| `SemanticFacts.UpsertAbsent` | crates/ontolith-ai/src/infrastructure/mod.rs:245-258 | a new term goes to the end, or the provider's error or the dimension error is returned and nothing changes |
| `SemanticFacts.RemovePresent` | crates/ontolith-ai/src/infrastructure/mod.rs:260-270 | a removal puts the last entry in the place of the first equal one |
| `SemanticFacts.TriedInOrder` | crates/ontolith-ai/src/application/mod.rs:95-108 | an absent term with fewer absent terms before it than there is room is tried, in order |
| `SemanticFacts.TriedCount` | crates/ontolith-ai/src/application/mod.rs:95-108 | as many terms are tried as are absent, repeats counted, or as there is room for |
| `SemanticFacts.StopsAtFirstFailure` | crates/ontolith-ai/src/domain/mod.rs:119-131 | a batch stops right before its first failure |
| `SemanticFacts.BatchResult` | crates/ontolith-ai/src/domain/mod.rs:119-131 | it returns how many entries it added, or the error of the first failure |
| `Reconcile.ReferencedIff` | crates/ontolith-server/src/app.rs:904-930 | a term is held back exactly when it is not NaN and is a non-blank term of the store or a blank-looking IRI kept by a blank subject |
| `ReconcileIndex.CommitSteps` | crates/ontolith-storage/src/infrastructure/mod.rs:516-540 | over a batch without key deletes, up to the sign of zeros, a statement gained was put and a statement lost equals one deleted, so none about a NaN is lost |
| `ReconcileIndex.IncrementalInSyncIff` | crates/ontolith-server/src/app.rs:828-873 | from an index in step with the store, up to the sign of zeros, a batch leaves it in step exactly when no wanted term is cut off and no phantom is indexed; NaN literals included |
| `ReconcileIndex.InSyncInBitsIff` | crates/ontolith-server/src/app.rs:828-873 | an index is in step to the bit exactly when it is in step and the store has no zero of the other sign beside an indexed one |
| `ReconcileIndex.IncrementalInSync` | crates/ontolith-server/src/app.rs:828-873 | with room, a working provider and no blank-looking IRIs the index stays in step with the store |
| `ReconcileIndex.BlankAlwaysEvicted` | crates/ontolith-server/src/app.rs:904-930 | a blank node named by a delete leaves the index even if still used |
| `ReconcileFull.FromStoreNoStrangerIff` | crates/ontolith-server/src/app.rs:877-900 | whatever the cap does, the full difference leaves no indexed term that the store lacks exactly when the store has every indexed term that is NaN or shares its bytes with a term of the store; for terms of any length |
| `ReconcileFull.FromStoreCompleteIff` | crates/ontolith-server/src/app.rs:877-900 | the full difference mirrors the store exactly when no unlisted term is cut off and an indexed term is NaN or has bytes found in the store just when the store lists it; for terms of any length |
| `ReconcileFull.OnlyFloatsGoWrong` | crates/ontolith-server/src/app.rs:877-900 | where no first field has 2^32 bytes these conditions say that the store has every indexed NaN and that no indexed zero has only the zero of the other sign there |
| `ReconcileFull.FromStoreInSyncIff` | crates/ontolith-server/src/app.rs:877-900 | from any index, in step or not, the full difference leaves one in step exactly when it gets every non-blank term right |
| `ReconcileFull.PathsAgree` | crates/ontolith-server/src/app.rs:828-900 | when neither loses a non-blank term, the incremental path and the full difference leave the same non-blank terms |
| `ReconcileRuns.ChangeInSyncIff` | crates/ontolith-server/src/app.rs:828-900 | from an index in step, one write, told to the reconciler or not, under a dictionary that only grows, leaves it in step exactly when it goes right |
| `ReconcileRuns.RunInSyncIff` | crates/ontolith-server/src/app.rs:828-900 | over any run of such writes an index in step at the start is in step after every write exactly when every write goes right |
| `ReconcileRuns.FullDifferenceRepairs` | crates/ontolith-server/src/app.rs:877-900 | whatever went wrong before in a run, a write reconciled from the store puts the index in step exactly when that write goes right |
| `ReconcileBlank.BlankSubjectIsSkipped` | crates/ontolith-server/src/app.rs:145-158 | a statement whose subject decodes to a text that starts with the bytes of _: has just its verb and object as terms, whatever follows those bytes |
| `ReconcileBlank.OtherSubjectIsTerm` | crates/ontolith-server/src/app.rs:145-158 | every other decoded subject is a term of its statement, before the verb and the object |
| `ReconcileBlank.BlankIndexedIff` | crates/ontolith-server/src/app.rs:828-900 | after a write that goes right such a text is indexed as an IRI exactly when some statement has it as verb or object |
| `ReconcileBlank.OtherIndexedIff` | crates/ontolith-server/src/app.rs:828-900 | after a write that goes right any other IRI is indexed exactly when it is a decoded subject, a verb or an object |
| `ReconcileBlank.IndexedFromStoreIff` | crates/ontolith-server/src/app.rs:877-900 | the same from any index, in step or not, for a write reconciled from the store |
| `ReconcileBlank.BlankEntersOnlyAsVerbOrObject` | crates/ontolith-server/src/app.rs:828-900 | whatever the cap and the provider do, no write adds such an IRI unless a statement it puts, or the store, has it as verb or object |
| `ReconcileStore.PutTripleIs` | crates/ontolith-storage/src/infrastructure/mod.rs:516-540 | a put statement goes to the end of its list unless an equal one is there |
| `ReconcileStore.PutQuadIs` | crates/ontolith-storage/src/infrastructure/mod.rs:516-540 | the same for a statement of a graph, compared with the same graph's |
| `ReconcileStore.DeleteTripleIs` | crates/ontolith-storage/src/infrastructure/mod.rs:516-540 | a delete takes every equal statement out of the default graph, and nothing else |
| `ReconcileStore.DeleteQuadIs` | crates/ontolith-storage/src/infrastructure/mod.rs:516-540 | a delete takes every equal statement of the same graph out, and nothing else |
| `ReconcileStore.DeleteKeyIs` | crates/ontolith-storage/src/infrastructure/mod.rs:516-540 | deleting a key takes out every statement with its first component as subject, in every graph, and no other |
| `ReconcileStore.WhenWholesale` | crates/ontolith-server/src/app.rs:836-846 | with a key delete among the operations everything is compared with the store |
| `ReconcileStore.PutsAndDeletes` | crates/ontolith-server/src/app.rs:847-872 | otherwise terms are added for what is put and evicted, unless referenced, for what is deleted |
| `ReconcileRuntime.ReconcileSemantic` | crates/ontolith-server/src/app.rs:828-873 | the method computes the incremental result, or the full difference after key deletes or unknown operations |
| `ReconcileRuntime.ReconcileFromStore` | crates/ontolith-server/src/app.rs:877-900 | the method computes the full difference by canonical bytes |
| `ReconcileGaps.PhantomLingers` | crates/ontolith-server/src/app.rs:904-930 | a concrete batch after which a deleted blank-looking IRI stays indexed |
| `ReconcileGaps.RepeatsUseUpTheCap` | crates/ontolith-ai/src/application/mod.rs:95-108 | a concrete batch of two distinct terms that a cap of two cuts off |
| `ReconcileGaps.EvictionComesTooLate` | crates/ontolith-server/src/app.rs:864-869 | a concrete batch whose eviction would have made room for the term it lost |
| `ReconcileGaps.NaNOutlivesItsStore` | crates/ontolith-server/src/app.rs:877-900 | an indexed NaN stays after a full difference with an empty store |
| `ReconcileGaps.WrongZeroIsDropped` | crates/ontolith-server/src/app.rs:877-900 | with one zero indexed and the other in the store, the full difference drops the one and leaves the other out |
| `ReconcileGaps.OtherZeroStaysOut` | crates/ontolith-server/src/app.rs:828-873 | put beside an indexed zero, the zero of the other sign stays out of the index |
| `CivilDate.CivilIsDate` | crates/ontolith-storage/benches/storage_bench.rs:65-76 | every day number, negative ones included, gives a valid Gregorian date |
| `CivilDate.EpochStart` | crates/ontolith-storage/benches/storage_bench.rs:65-76 | day 0 is 1970-01-01 |
| `CivilDate.KnownDates` | crates/ontolith-storage/benches/storage_bench.rs:65-76 | 29 February 2000, 28 February 1900 and the day after it |
| `CivilDate.CivilSuccessor` | crates/ontolith-storage/benches/storage_bench.rs:65-76 | day z + 1 is the calendar day after day z |
| `CivilDate.CivilCountsDays` | crates/ontolith-storage/benches/storage_bench.rs:65-76 | from any day z, day z + n is reached by walking n calendar days |
| `CivilDate.CivilFromEpoch` | crates/ontolith-storage/benches/storage_bench.rs:65-76 | day n is reached by walking n calendar days from 1970-01-01 |
| `CivilDate.CivilBeforeEpoch` | crates/ontolith-storage/benches/storage_bench.rs:65-76 | walking n calendar days from day -n reaches 1970-01-01 |
| `CivilDate.CivilIncreases` | crates/ontolith-storage/benches/storage_bench.rs:65-76 | later day numbers give later dates, so no two days share one |
| `Tenants.PutIndexedIff` | crates/ontolith-server/src/tenants.rs:36-60 | a write keeps the digest index in agreement with the records exactly when the tenant shares no digest with another |
| `Tenants.DeleteIndexed` | crates/ontolith-server/src/tenants.rs:85-94 | a delete keeps the agreement |
| `Tenants.RunsStayIndexed` | crates/ontolith-server/src/tenants.rs:36-94 | over any run of puts and deletes that keeps digests apart the index agrees with the records |
| `Tenants.ResolveIsSearch` | crates/ontolith-server/src/tenants.rs:96-103 | resolving a key finds exactly the tenant whose record lists its digest, and nothing when none does |
| `Tenants.SharedDigestIsLost` | crates/ontolith-server/src/tenants.rs:36-103 | when two tenants share a digest, deleting the later one loses the other's key |
| `TenantFacts.PutExactly` | crates/ontolith-server/src/tenants.rs:36-60 | key by key: the record, one entry for each of its digests, the entries it no longer has removed, everything else as before |
| `TenantFacts.DeleteExactly` | crates/ontolith-server/src/tenants.rs:85-94 | key by key: the record and the entries of its digests removed, everything else as before |
| `TenantFacts.UnreadableStays` | crates/ontolith-server/src/tenants.rs:36-94 | a record that cannot be read stays, and so does everything else |
| `TenantFacts.ResolveFollows` | crates/ontolith-server/src/tenants.rs:96-103 | an entry leads to the record it names: nothing, that record, or its error |
| `TenantFacts.ReadsBackIff` | crates/ontolith-security/src/domain/tenant.rs:71-94 | a record reads back exactly when the id has 1 to 64 of the characters a to z, 0 to 9, underscore and hyphen, and is not system |
| `Tenants.RocksTenantStore.WriteBatch` | crates/ontolith-server/src/tenants.rs:59-60 | operations are applied in order |
| `Tenants.RocksTenantStore.PutTenant` | crates/ontolith-server/src/tenants.rs:36-60 | the batch of stale deletes, the record and the new entries; fails when the old record cannot be read |
| `Tenants.RocksTenantStore.DeleteTenant` | crates/ontolith-server/src/tenants.rs:85-94 | the batch of stale deletes and the record |
| `Tenants.RocksTenantStore.ResolveKey` | crates/ontolith-server/src/tenants.rs:96-103 | follows the index entry to the record |
| `QueryUrl.QueryRoundTrip` | crates/ontolith-server/src/federation.rs:152-169 | for every endpoint and query text, taking the sent target apart keeps the path and the other parameters and binds query to exactly the text; it panics exactly when the endpoint alone does |
| `QueryUrl.DecodeEncoded` | crates/ontolith-server/src/federation.rs:158-169 | decoding undoes encoding byte for byte |
| `QueryUrl.EncodedIsPlain` | crates/ontolith-server/src/federation.rs:158-169 | encoded text holds only unreserved characters and percent signs |
| `QueryUrl.EncodingIsInjective` | crates/ontolith-server/src/federation.rs:158-169 | different texts are sent differently |
| `QueryUrl.PercentEncodeText` | crates/ontolith-server/src/federation.rs:158-169 | the loop computes the encoding |
| `QueryUrl.UrlDecodeText` | crates/ontolith-server/src/http.rs:342-369 | the index loop computes the decoding, panics included |
| `QueryUrl.SplitTargetText` | crates/ontolith-server/src/http.rs:323-340 | the loop over pairs computes the path and parameters |
| `QueryUrl.SplitLast` | crates/ontolith-server/src/http.rs:323-340 | splitting text with one more piece appended gives one more piece |
| `QueryUrl.PanicsIff` | crates/ontolith-server/src/http.rs:342-369 | decoding panics exactly when some percent sign stands three bytes before the inside of a character |
| `QueryUrl.AsciiNeverPanics` | crates/ontolith-server/src/http.rs:342-369 | ASCII input is decoded without a panic |
| `QueryUrl.CutInsideCharacterPanics` | crates/ontolith-server/src/http.rs:342-369 | a concrete input whose escape is cut inside a character |
| `QueryFacts.ByteIsSent` | crates/ontolith-server/src/federation.rs:158-169 | unreserved bytes are sent as they are, all others as a percent sign and two upper-case digits |
| `QueryFacts.EncodingJoins` | crates/ontolith-server/src/federation.rs:158-169 | text is sent byte by byte |
| `QueryFacts.SentTarget` | crates/ontolith-server/src/federation.rs:152-155 | the query goes out as the parameter query, behind an ampersand when the endpoint has parameters |
| `QueryFacts.DecodeIff` | crates/ontolith-server/src/http.rs:342-369 | decoding that does not panic gives exactly what the pieces stand for: escapes of two digits or a plus and a digit, plus for space, and every other byte for itself |
| `QueryFacts.SplitIff` | crates/ontolith-server/src/http.rs:323-340 | splitting gives the one list of pieces without separators that joins to the text |
| `QueryFacts.ParamsAre` | crates/ontolith-server/src/http.rs:323-340 | for every parameter the last piece that binds it counts; empty pieces bind nothing |
| `QueryFacts.ParamsPanicIff` | crates/ontolith-server/src/http.rs:323-340 | taking the pieces in panics exactly when some piece that is not empty binds nothing |
| `QueryFacts.TargetIs` | crates/ontolith-server/src/http.rs:323-340 | after the first question mark the pieces between ampersands are the parameters |
| `Geometry.RingGivesRect` | crates/ontolith-geo/src/wkt.rs:62-90 | a closed ring round a rectangle gives it from any corner, either way round |
| `Geometry.RectComesFromRing` | crates/ontolith-geo/src/wkt.rs:62-90 | every accepted ring goes once around the rectangle it gives |
| `Geometry.RingRefused` | crates/ontolith-geo/src/wkt.rs:62-89 | what is refused: a ring of other than five positions, an open one, and as unsupported a closed one round no rectangle |
| `Geometry.ScanStops` | crates/ontolith-geo/src/wkt.rs:198-242 | a complete number is scanned to its end whatever harmless byte follows |
| `Wkt.WktRoundTrip` | crates/ontolith-geo/src/wkt.rs:11-60 | parsing printed WKT gives the shape back, and fails exactly for corners out of order |
| `Wkt.PolygonIsRing` | crates/ontolith-geo/src/wkt.rs:37-43 | any ring written as a polygon is judged exactly as a ring |
| `Wkt.CrsPrefix` | crates/ontolith-geo/src/wkt.rs:16-24 | a reference system in front is accepted exactly when it is CRS84 and then changes nothing |
| `NumberTokens.WholeTokenIff` | crates/ontolith-geo/src/wkt.rs:198-243 | a token is scanned to its end exactly when it is a sign, digits, a fraction and an exponent in the syntax's form; in JSON and in WKT |
| `WktReading.AcceptedIff` | crates/ontolith-geo/src/wkt.rs:11-60 | a text without a reference system is read as a shape exactly when the grammar says so: keywords in either case, any white space, ordered corners, a ring round a rectangle, nothing left over |
| `WktReading.PolygonIsJudged` | crates/ontolith-geo/src/wkt.rs:37-43 | the text of a polygon is judged as its ring, errors included, whatever white space it has |
| `WktReading.OtherWords` | crates/ontolith-geo/src/wkt.rs:155-176 | another first word is refused whatever follows: as unsupported for the ten other shapes of WKT, else as malformed |
| `WktReading.ErrorsAre` | crates/ontolith-geo/src/wkt.rs:11-60 | a refused text is malformed, or unsupported, and then its first word is POLYGON or one of the ten other shapes |
| `WktReading.Crs84Only` | crates/ontolith-geo/src/wkt.rs:16-24 | exactly the one IRI of CRS84 is accepted in front, and then changes nothing; any other is refused by name |
| `WktReading.OneSystemOnly` | crates/ontolith-geo/src/wkt.rs:139-153 | a second reference system is refused, and so is one that is not closed |
| `WktParser.ReadWkt` | crates/ontolith-geo/src/wkt.rs:11-60 | the parser over a moving position computes the specified result |
| `WktParser.ReadRing` | crates/ontolith-geo/src/wkt.rs:178-196 | the loop over positions computes the specified ring |
| `GeoCursor.Cursor.EatNumber` | crates/ontolith-geo/src/wkt.rs:198-242 | moves over exactly the number at the front |
| `JsonLaws.TextRead` | crates/ontolith-server/src/app.rs:2997-3015 | every well-formed text, escaped as the server escapes JSON strings, is read back by the GeoJSON string reader, which stops right after it |
| `JsonReading.EscapedIs` | crates/ontolith-server/src/app.rs:2997-3015 | how the server writes each character: five have a letter, other control characters a lower-case code, the rest stand |
| `JsonLaws.JsonRoundTrip` | crates/ontolith-geo/src/geojson.rs:196-276 | parsing inverts compact printing with those escapes for every JSON value of well-formed text and finite numbers, nested to any depth, and stops right after it |
| `JsonReading.CharsRead` | crates/ontolith-geo/src/geojson.rs:278-332 | every spelling of a string is read: raw characters, the eight letters after a backslash, and four hexadecimal digits for every character below U+10000 |
| `JsonReading.TextSpelled` | crates/ontolith-geo/src/geojson.rs:278-332 | and whatever is read as a string is such a spelling |
| `JsonExact.JsonReads` | crates/ontolith-geo/src/geojson.rs:196-276 | every text of a value in the grammar reads as that value, with any white space between tokens |
| `JsonAccepted.ParsesExactly` | crates/ontolith-geo/src/geojson.rs:196-276 | the parser accepts exactly the texts of the grammar and gives the value they spell |
| `JsonParser.ReadValue` | crates/ontolith-geo/src/geojson.rs:196-276 | the recursive-descent parser terminates and computes the specified value |
| `JsonParser.ReadText` | crates/ontolith-geo/src/geojson.rs:278-332 | the string loop computes the specified text, escapes and malformed UTF-8 included |
| `GeoJson.GeoJsonRoundTrip` | crates/ontolith-geo/src/lib.rs:90-118 | parsing printed GeoJSON puts a rectangle's corners in order, so it gives the shape back exactly when they were |
| `GeoJson.PolygonIsRing` | crates/ontolith-geo/src/geojson.rs:121-174 | any ring printed as a polygon is judged exactly as a ring |
| `GeoJson.BothReadRings` | crates/ontolith-geo/src/geojson.rs:121-174 | a closed ring round a rectangle, from any corner and either way round, is that rectangle in both syntaxes |
| `GeoJsonFacts.CrsIff` | crates/ontolith-geo/src/geojson.rs:48-79 | every printed shape with a reference system added is read as without it when that is CRS84, and refused with its name otherwise |
| `GeoJsonFacts.CrsDecides` | crates/ontolith-geo/src/geojson.rs:48-79 | the same for any document and any place among its members, malformed documents included |
| `GeoJsonDocs.DocumentIsJudged` | crates/ontolith-geo/src/geojson.rs:19-38 | a JSON text with white space around it is judged by its value |
| `GeoJsonDocs.OthersAreMalformed` | crates/ontolith-geo/src/geojson.rs:19-38 | an input that is not the text of one JSON value is malformed |
| `GeoJsonDocs.NoteFailsIff` | crates/ontolith-geo/src/geojson.rs:39-71 | reading the members fails exactly when a type is no string or a reference system no object |
| `GeoJsonDocs.BadIsMalformed` | crates/ontolith-geo/src/geojson.rs:39-71 | a document with such a member is malformed |
| `GeoJsonDocs.OtherSystemIsRefused` | crates/ontolith-geo/src/geojson.rs:72-79 | otherwise a last reference system that is named and not CRS84 is refused by name, whatever else is wrong |
| `GeoJsonDocs.IncompleteIsMalformed` | crates/ontolith-geo/src/geojson.rs:80-83 | otherwise a document without type or coordinates is malformed |
| `GeoJsonDocs.LastMembersCount` | crates/ontolith-geo/src/geojson.rs:39-71 | only the last type, coordinates and reference system count, and members of other names do not |
| `GeoJsonDocs.LastNameCounts` | crates/ontolith-geo/src/geojson.rs:48-68 | the last name in any properties of the reference system counts |
| `GeoJsonDocs.PointIff` | crates/ontolith-geo/src/geojson.rs:94-119 | a point is an array of exactly two finite numbers |
| `GeoJsonDocs.PolygonIff` | crates/ontolith-geo/src/geojson.rs:121-174 | a polygon is an array of one ring, which decides; of more or fewer rings it is unsupported, and anything else is malformed |
| `GeoJsonDocs.OtherKind` | crates/ontolith-geo/src/geojson.rs:80-91 | any other type is unsupported |
| `JsonParser.ReadGeoJson` | crates/ontolith-geo/src/geojson.rs:19-92 | the reader over a moving position computes the specified result |

## Left out

- Sockets, TLS, HTTP and gRPC serving, remote fetch, the management proxy and the console: input, output and interface.
- Raft, the storage engine, the query engine, the reasoner, SHACL and the RDF parsers: the store is a list of statements
  and the dictionary a map from node ids to text.
- Locks: every locked method is one step. Lock poisoning and interleavings inside a method are not modelled.
- `DataPlaneSync`: a queue drained in order.
- Read-only accessors and snapshots of the cluster state, regions and the default configuration values.
- Error messages: errors are enumerations of the cases; the message text is not modelled.
- Counters: log lengths, indexes, ticks and lags are unbounded naturals; only the epoch's saturation and the 32-bit slot
  arithmetic are written out. `civil_from_days` and the date arithmetic are over unbounded integers, so days within
  719,468 of the 64-bit maximum, where the code overflows, are not distinguished.
- Floating point: embedding values and scores are reals, so rounding in the dot products is not modelled; coordinates are
  places in the numeric order of finite numbers, so the two signed zeros are one coordinate. Literals keep their bits,
  and terms are compared as the code compares them (`TermEquality`).
- Normalization takes a square root; it is a parameter of the provider that keeps the dimension or fails.
- Embedding providers are deterministic functions of the term; the remote provider's failures over time are not modelled.
- The hyperplane weights come from a seeded generator; the model holds for any weights.
- Bucket keys are sets of bit positions instead of 64-bit words with shifts and masks.
- Standard library sorting and partial selection are modelled by their contracts; which of several equal scores comes
  first is left open.
- The RocksDB-backed semantic index and the startup auto-index.
- JSON of tenant records and of configuration: a pair of functions that are inverse for valid tenant ids.
- `from_utf8_lossy` is a function that leaves well-formed text alone; what it makes of malformed text is left open.
- Number text: showing and reading a coordinate is a pair of inverse functions whose shown text is a complete JSON number
  (`Geometry.FaithfulExists` gives one, as `Tenants.InverseExists`, `QueryUrl.LossyExists` and `SemanticDomain.UnitEmbeds`
  do for the other parameters).
- `haversine_distance`, the topology predicates, authentication, auditing, metrics and tracing.
- Monotonicity of the commit index is not claimed: healing a partition or registering a node can lower it.
- RunInSyncIff: the dictionary only gains nodes and has the subjects of what is put, as nodes are encoded before a write is
  committed; a dictionary that forgets nodes is not modelled.
- IncrementalInSync: assumes that no put term or indexed IRI looks blank; `IncrementalInSyncIff` gives the exact condition.
