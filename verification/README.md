# A verified model of the distributed search cluster

The repository is a small cluster for ingesting, indexing and searching books. Every node runs the same program. The
model follows its four hard parts, which build on each other:

- **Membership** (`Membership.dfy`, `MembershipLaws.dfy`, `MembershipRuns.dfy`, `GossipCluster.dfy`, `Discovery.dfy`,
  `FailureDetector.dfy`): the SWIM-like gossip service of a node as a class, whole clusters over a network that loses,
  repeats, reorders and misroutes messages, how newcomers are discovered, and the timing of the failure detector over
  whole runs.
- **Placement and replication** (`Placement.dfy`, `Partitioner.dfy`, `Storage.dfy`, `Writes.dfy`, `WriteLaws.dfy`,
  `Replication.dfy`, `WriteRefinement.dfy`, `AntiEntropy.dfy`, `Histories.dfy`, `Durability.dfy`, `Dedup.dfy`): the ring
  of alive nodes, the replicated map with its operation identifiers, distributed writes with their retries, reads, and anti-entropy.
- **Task queue** (`Queue.dfy`, `QueueLaws.dfy`, `Executor.dfy`, `QueueCluster.dfy`, `QueueSpread.dfy`, `QueueSafety.dfy`,
  `QueueDrain.dfy`): tasks with leases, the worker, and all interleavings of submissions, replication and workers on many nodes.
- **Index and search** (`Tokenizer.dfy`, `Indexing.dfy`, `Search.dfy`): the two tokenizers, the index handler, and the
  scoring of queries.

`Common.dfy` and `NodeOrder.dfy` hold shared arithmetic and the order of node identifiers.

In each part a module of functions gives the meaning of the operations, a class updates its fields in place and is
proved to follow these functions, and the theorems about whole runs speak of the same functions. What each function
means is stated once more, member by member, entry by entry or character by character, without these functions:
`MembershipLaws`, `WriteLaws` and `QueueLaws` do this, and the laws beside the functions of the other modules. `dafny
verify dfyconfig.toml` checks everything.

Conventions: times are milliseconds and are passed in; a handler reads the clock once. The hash of a key is an
arbitrary function. Node identifiers are strings in lexicographic order. Iteration over a concurrent map visits its
entries in an arbitrary order. A remote call is a message that is delivered zero or more times, at any later point.
Each access to a concurrent map is one atomic step.

## Where the code and its documentation differ

The model follows the code. Each difference is a proved statement, with the exact condition where there is one.

- Self-defence (`src/membership/service.rs:408-412`) compares strictly, and only self-defence raises a counter: in no
  run does it ever fire, and nobody is ever refuted (`GossipCluster.SelfDefenceNeverFires`). Contact does not clear a
  suspicion either, so a node suspected once is never seen alive again without a new Join
  (`GossipCluster.OnlyDegrades`, `FailureDetector.SteadyContactFreezes`, `GossipCluster.LiveNodeLost`).
- `src/storage/partitioner.rs:56-57` promises that the next node takes over a failed primary. That holds exactly when
  `p / n` is a multiple of `n - 1` (`Placement.NextNodeTakesOver`), and the new primary held a copy exactly when
  `1 + (p / n) % (n - 1)` is less than the replication factor (`Placement.NewPrimaryHeldCopy`).
- `src/storage/memory.rs:9` promises copies on the backups before success. `Durability.DurableExactly` says when, for every
  write in every state and every fate of the forward, `Durability.DurableOnEveryNetwork` over all networks, in what a
  caller can know before the call, and `Durability.NewValueDurableExactly` for a value no owner holds yet. The promise is
  broken in three ways. An operation already recorded at submitter or primary is answered Ok and stored nowhere; the
  identifier comes from the client (`src/storage/protocol.rs:65`), so repeating a failed write does this
  (`Durability.RepeatAtPrimary`, `Durability.RepeatElsewhere`). A backup that recorded the operation, as one that submits
  a write has, refuses its replica. And the retry of a forward whose first run went unanswered is taken for a duplicate.
- `src/executor/mod.rs:13-14` and `src/executor/queue.rs:353-354` promise that an expired lease lets another worker take
  the task. Expired tasks are listed but can never be claimed (`QueueSafety.ExpiredIsListedInVain`), on the node that
  ran them or on one that copied them (`QueueSafety.DumpStrandsTask`).
- `src/executor/executor.rs:121-123` promises that the renewal stops when the worker panics or hangs. The renewal is a job
  of its own that only the worker's normal end aborts: after a panic it can go on, under a new lease each time
  (`QueueSafety.RenewalOutlivesPanic`, `QueueSafety.PanickedRenewalRun`), and the task is listed only from 30 s after the
  last renewal (`QueueSafety.HeldTaskListedExactly`). It is stranded either way (`QueueSafety.PanicStrandsTask`).
- `src/main.rs:185` takes a list that cannot be read for an empty one, and then forgets every other book of it
  (`Indexing.LostReadForgets`).
- `src/search/engine.rs:17-18` promises to count distinct query terms. The score counts positions, which is the same
  exactly when no matching term is repeated in the query (`Search.ScoreIsDistinctExactly`).
- The two tokenizers differ on words such as `a!!`, `abc1` and `it's` (`Tokenizer.WordAgreesExactly`).

## Model

| member | source | states |
|---|---|---|
| NodeOrder.RingUnique | src/storage/partitioner.rs:64-68 | two sorted duplicate-free lists of the same nodes are equal, so the ring depends on the alive set only |
| NodeOrder.SortIds | src/storage/partitioner.rs:64-68 | the result is sorted and a permutation of the input |
| NodeOrder.DifferenceDecides | src/storage/partitioner.rs:64-68 | two identifiers are ordered by the first character in which they differ |
| NodeOrder.PrefixIsFirst | src/storage/partitioner.rs:64-68 | a prefix comes before what it begins |
| Placement.PartitionIs | src/storage/partitioner.rs:47-52 | the partition of a key is its hash modulo 256, truncated to 32 bits or not |
| Placement.OwnerAt | src/storage/partitioner.rs:69-81 | the i-th owner of p is the ring member at position p + i modulo the size of the ring |
| Placement.OwnersWellFormed | src/storage/partitioner.rs:63-82 | any non-empty alive set gives every partition min(rf, n) pairwise distinct alive owners |
| Placement.OnePrimary | src/storage/partitioner.rs:63-111 | each partition has exactly one primary, and nobody is primary and backup of the same partition |
| Placement.PrimaryIff | src/storage/partitioner.rs:69-81 | the node at ring position i is primary for exactly the partitions congruent to i |
| Placement.PrimaryShare | src/storage/partitioner.rs:88-97 | a node is primary for floor or ceiling of P / n partitions, the first P % n positions getting one more |
| Placement.TotalShares | src/storage/partitioner.rs:88-111 | over the ring there are P primary copies and P * (min(rf, n) - 1) backup copies |
| Placement.RingWithout | src/storage/partitioner.rs:64-68 | removing a node from the alive set closes the gap in the sorted ring and changes nothing else |
| Placement.FailoverSuccessor | src/storage/partitioner.rs:56-81 | after the primary of p fails among n nodes, the new primary is the member 1 + (p / n) % (n - 1) places after it |
| Placement.NextNodeTakesOver | src/storage/partitioner.rs:56-57 | the documented takeover by the next node holds exactly when p / n is a multiple of n - 1 |
| Placement.NewPrimaryHeldCopy | src/storage/partitioner.rs:69-81 | the new primary already owned a copy exactly when its distance is below the replication factor, so always for rf >= n |
| Placement.FailoverCounterexample | src/storage/partitioner.rs:56-57 | three nodes, two copies: partition 3 moves to a node that never held it |
| Partitioner.PartitionManager.constructor | src/storage/partitioner.rs:28-42 | 256 partitions and a replication factor of at least 1 |
| Partitioner.PartitionManager.SortedAlive | src/storage/partitioner.rs:64-68 | the sorted alive members are the ring of the alive set, in whatever order they were discovered |
| Partitioner.PartitionManager.GetOwners | src/storage/partitioner.rs:63-82 | the wrapping loop computes the owners of the placement over the node's own view |
| Partitioner.PartitionManager.MyPrimaryPartitions | src/storage/partitioner.rs:88-97 | exactly the partitions whose first owner is this node, ascending |
| Partitioner.PartitionManager.MyBackupPartitions | src/storage/partitioner.rs:102-111 | exactly the partitions that have this node among their later owners, ascending |
| Partitioner.PrimaryListIs | src/storage/partitioner.rs:88-97 | the primary list is ascending and has exactly the partitions that fall on the ring position of the node |
| Partitioner.BackupListIs | src/storage/partitioner.rs:102-111 | the backup list is ascending and has exactly the partitions whose ring position lies 1 to rf - 1 places before the node |
| Partitioner.PrimaryListIsShare | src/storage/partitioner.rs:88-97 | the primary list of the node at a ring position has the length of its fair share |
| Partitioner.SameAliveSameOwners | src/storage/partitioner.rs:63-82 | two nodes that found the same alive members, each in its own order, sort and compute the same owners |
| Membership.MembershipService.constructor | src/membership/service.rs:46-87 | a new node knows only itself, alive at incarnation 1 |
| Membership.MembershipService.JoinSeeds | src/membership/service.rs:94-117 | one Join of the local node to every seed and nothing else |
| Membership.MembershipService.GetAliveMembers | src/membership/service.rs:128-134 | exactly the members held alive, each once |
| Membership.MembershipService.GossipRound | src/membership/service.rs:141-182 | a Ping with the own counter to some other alive member, if there is one |
| Membership.MembershipService.HandlePing | src/membership/service.rs:252-301 | refreshes or adds the sender without touching its state, and answers with the whole resulting view |
| Membership.MembershipService.MergeMember | src/membership/service.rs:347-384 | overwrites only a member that is not dead and strictly older; adds an unknown one unless dead |
| Membership.MembershipService.HandleAck | src/membership/service.rs:308-340 | ignored from a dead sender, else contact and then all listed members merged in order |
| Membership.MembershipService.HandleSuspect | src/membership/service.rs:392-451 | strictly newer suspicions only; about itself the node raises its counter and spreads a refutation |
| Membership.MembershipService.HandleAlive | src/membership/service.rs:457-494 | newer refutations, or equally new ones of a suspected member, make it alive |
| Membership.MembershipService.HandleJoin | src/membership/service.rs:500-508 | the announced member replaces whatever was known, whatever its state |
| Membership.MembershipService.HandleMessage | src/membership/service.rs:211-245 | each message is handled by its handler and answered as that handler answers |
| Membership.MembershipService.BroadcastMessage | src/membership/service.rs:589-605 | one copy to every other member held alive |
| Membership.MembershipService.InspectMembers | src/membership/service.rs:523-577 | one pass visits every remote member once; the alarms are exactly the newly suspected ones |
| Membership.MembershipService.DetectFailures | src/membership/service.rs:517-584 | the view after a pass, and every alarm sent to all members then held alive |
| MembershipLaws.StartIs | src/membership/service.rs:46-87 | the state of a new node, with the HTTP port 1000 above the gossip port |
| MembershipLaws.JoinIs | src/membership/service.rs:500-508 | a Join replaces the whole entry of the announced node, dead or not, with contact now, and touches no other |
| MembershipLaws.PingIs | src/membership/service.rs:252-284 | a Ping refreshes a known sender without lowering its incarnation, adds an unknown one as alive, and touches no other |
| MembershipLaws.AckIsListing | src/membership/service.rs:286-301 | a Ping is answered by one Ack to its source that lists every member of the new view once |
| MembershipLaws.AckIs | src/membership/service.rs:308-384 | for every identifier: what an Ack makes of it, as the last of its strictly newer listings, the first dead one final, says |
| MembershipLaws.AckDiscovers | src/membership/service.rs:367-383 | any listing that does not say dead makes an unknown member known, as first so listed unless a later listing is newer |
| MembershipLaws.AckTakesNews | src/membership/service.rs:347-366 | the one listing newer than the entry of a member not held dead is taken over with its state |
| MembershipLaws.GossipSpreads | src/membership/service.rs:252-384 | after a Ping and its Ack the asking node knows everyone the answering one does not hold dead |
| MembershipLaws.SuspicionIs | src/membership/service.rs:392-451 | when a suspicion counts, what it makes of another member, and how the local node refutes it and to whom |
| MembershipLaws.RefutationIs | src/membership/service.rs:457-494 | exactly when a refutation counts, and what it makes of the member |
| MembershipLaws.BroadcastIs | src/membership/service.rs:589-605 | a broadcast goes to exactly the gossip addresses of the other living members |
| MembershipLaws.PassIs | src/membership/service.rs:526-577 | what a pass makes of each member, by its state and the 5 s and 10 s since its last contact |
| MembershipLaws.AlarmIsSent | src/membership/service.rs:551-583 | every member still alive after a pass is told of every member it began to suspect |
| MembershipLaws.SentIsAlarm | src/membership/service.rs:551-583 | a pass sends nothing else |
| MembershipRuns.NeverForgotten | src/membership/service.rs:252-577 | arbitrary messages: members are never removed, and without a Join the dead stay dead and a remote incarnation never drops |
| MembershipRuns.OwnIncarnationCanDrop | src/membership/service.rs:408-412 | the exception: the local node's own entry can drop from 10 to 2 |
| MembershipRuns.ClaimsTakeMaximum | src/membership/service.rs:392-494 | any list of Suspect and Alive messages leaves the lexicographic maximum of the entry and all claims |
| MembershipRuns.ClaimsCommute | src/membership/service.rs:392-494 | only the set of such messages matters, not order, repetition or time |
| MembershipRuns.SelfDefenceNotIdempotent | src/membership/service.rs:400-431 | about the local node repetition does matter: the same suspicion twice raises the counter twice |
| GossipCluster.ReceiveOk | src/membership/service.rs:211-508 | handling an acceptable message keeps the local invariant and, unless it is a Join, no known member changes state |
| GossipCluster.RunKeepsInv | src/membership/service.rs:94-605 | the invariant over all views and all messages in flight holds in every run |
| GossipCluster.NoOverclaim | src/membership/service.rs:252-494 | in every run no view and no message claims more for a node than its counter, and all counters stay 1 |
| GossipCluster.SelfDefenceNeverFires | src/membership/service.rs:400-431 | in every run no refutation is ever sent and no sent suspicion could trigger one |
| GossipCluster.RefutesExactly | src/membership/service.rs:400-431 | with somebody alive to tell, a node refutes exactly the suspicions newer than its own entry |
| GossipCluster.GossipNeverChangesKnownState | src/membership/service.rs:252-494 | in every run, delivering any sent message but a Join changes no known member's state or incarnation |
| GossipCluster.OnlyDegrades | src/membership/service.rs:252-577 | through any continuation without a Join of it, a member's state at an observer never improves |
| GossipCluster.SelfAlwaysAlive | src/membership/service.rs:526-529 | in every run every node holds itself alive, so every partition has an owner at every node |
| GossipCluster.LiveNodeLost | src/membership/service.rs:517-577 | in every run a member not heard of for over five seconds at a pass is not alive there, and never again without a new Join |
| GossipCluster.LonelyRunSuspects | src/membership/service.rs:534-553 | such a run: two nodes, one quiet for six seconds |
| Discovery.NewcomerDiscovers | src/membership/service.rs:94-384 | from every reachable state a new node with one live seed can come to know everyone the seed does not hold dead, and be held alive by the seed |
| Discovery.Exchange | src/membership/service.rs:141-340 | in every reachable state a node can ask any other it holds alive, and both then know each other, the asking one also whom the other does not hold dead |
| FailureDetector.SilentMemberDies | src/membership/service.rs:517-584 | with passes at most gap apart, a silent member is not alive 5 s + gap and dead 10 s + gap after its last contact |
| FailureDetector.HeardNotDemoted | src/membership/service.rs:534-570 | whatever else arrives, a member heard of within 5 s is not demoted by a pass, within 10 s not declared dead |
| FailureDetector.SteadyContactFreezes | src/membership/service.rs:252-301 | under steady contact the alive stay alive and the suspected stay suspected for ever |
| FailureDetector.ProjectIsLocalRun | src/membership/service.rs:187-245 | a node of a cluster run is the run of its own events |
| FailureDetector.ClusterDetectsSilence | src/membership/service.rs:517-584 | in every cluster run a member that falls silent is held dead 10 s + gap after its last contact |
| StorageSpec.PutRefinesFlat | src/storage/memory.rs:272-278 | a write under the partition of its key is an update of the union of the partitions, and keeps every key rightly filed |
| StorageSpec.LookupRefinesFlat | src/storage/memory.rs:336-346 | looking a key up in the partition of its hash is looking it up in the union of all partitions |
| StorageSpec.FlatIsComplete | src/storage/memory.rs:272-278 | every stored entry is in the union with its own value |
| StorageSpec.ApplyDump | src/storage/memory.rs:302-306 | applying a dump overlays it on its partition and touches no other |
| Storage.DistributedMap.ShouldProcess | src/storage/memory.rs:87-97 | new exactly when not recorded; a new operation is recorded, after a clear when more than 10000 are |
| Storage.DistributedMap.StoreLocal | src/storage/memory.rs:272-278 | the new table, with the key under the given partition |
| Storage.DistributedMap.StoreReplica | src/storage/memory.rs:327-333 | a recorded operation changes nothing; a new one is stored and recorded |
| Storage.DistributedMap.DumpPartition | src/storage/memory.rs:282-290 | every entry of the partition exactly once, in some order |
| Storage.DistributedMap.HasPartition | src/storage/memory.rs:293-298 | true exactly when the partition holds a key |
| Storage.DistributedMap.ApplyPartitionEntries | src/storage/memory.rs:302-306 | the entries stored in order, overwriting |
| Storage.DistributedMap.GetLocal | src/storage/memory.rs:336-346 | the value under the partition of the key, if any |
| Storage.DistributedMap.Get | src/storage/memory.rs:353-409 | the local value, else the first hit among the answering owners in owner order |
| Storage.DistributedMap.SyncPartition | src/main.rs:431-466 | a backup overlays the primary's entries, an empty primary the first backup's; other partitions stay |
| Storage.DistributedMap.SyncPartitions | src/main.rs:402-470 | one round syncs every owned partition, in any order, and nothing else |
| Dedup.ExactlyOnce | src/storage/memory.rs:87-97 | up to cap + 1 distinct operations, every delivery sequence equals that of first deliveries only |
| Dedup.OpsBounded | src/storage/memory.rs:87-97 | whatever is delivered, at most cap + 1 operations are recorded |
| Dedup.StaysRecorded | src/storage/memory.rs:87-97 | an operation delivered stays recorded until the set is cleared |
| Dedup.NotTwiceBetweenClears | src/storage/memory.rs:327-333 | no operation is accepted twice unless the set was cleared in between |
| Dedup.LateRepeatIsApplied | src/storage/memory.rs:91-93 | for every cap, after cap + 2 operations a repeat of the first one overwrites later writes |
| Dedup.DedupExactly | src/storage/memory.rs:87-97 | deduplication is exact for all sequences of up to n distinct operations if and only if n <= cap + 1 |
| Writes.DistributedStore.ReplicateToBackup | src/storage/memory.rs:234-268 | the backup applies the replica once if any attempt reaches it; ok when an attempt is answered |
| Writes.DistributedStore.ReplicateToBackups | src/storage/memory.rs:219-228 | backups in turn, up to the first that does not answer |
| Writes.DistributedStore.StoreAsPrimary | src/storage/memory.rs:212-231 | a recorded operation is answered Ok at once; a new one is recorded, stored and replicated |
| Writes.DistributedStore.ForwardPut | src/storage/memory.rs:170-205 | each attempt that arrives runs the primary's handler; the first answered one decides |
| Writes.DistributedStore.DistributedPut | src/storage/memory.rs:529-568 | records the operation here, then forwards or stores and replicates |
| WriteLaws.CallIs | src/storage/memory.rs:100-132 | a call has three attempts: it arrives if one does, and succeeds if one is answered |
| WriteLaws.ReplicaIs | src/storage/memory.rs:327-333 | a replica of a recorded operation changes nothing; a new one changes its own entry and the record only |
| WriteLaws.ReplicationIs | src/storage/memory.rs:219-268 | backup by backup: written exactly if its call arrives and all earlier ones were answered; Ok exactly when all are |
| WriteLaws.WriteTouches | src/storage/memory.rs:529-568 | whatever the network does, a write changes no data but the entry of its key at owners |
| WriteLaws.PrimaryOkIs | src/storage/memory.rs:551-565 | a new operation submitted at the primary is Ok exactly when every replication call is answered |
| WriteRefinement.WriteIsRun | src/storage/memory.rs:170-268 | every distributed write, with all retries, is a run of the replication protocol |
| Replication.ApplyKeepsInv | src/storage/memory.rs:212-333 | each step of the protocol keeps the invariant over stores and messages in flight |
| Replication.ReplicasAreContained | src/storage/memory.rs:212-333 | in every run nodes hold only partitions they own, a backup's keys are among the primary's, and every value was written and once held by the primary |
| AntiEntropy.ReadIsSound | src/storage/memory.rs:353-409 | in every run, whoever answers, a read returns only values written and once held by the primary |
| AntiEntropy.ReadFindsPrimary | src/storage/memory.rs:353-409 | if the primary answers, a read finds a value exactly when the primary has one, and that one unless there is a local copy |
| AntiEntropy.ReadIs | src/storage/memory.rs:353-409 | for arbitrary data: without a local copy a read is the value at the first owner that answers and has the key, and None exactly when there is no such owner |
| AntiEntropy.RoundsConverge | src/main.rs:402-470 | sync rounds in any order leave the primary as it was and make every backup that had one equal to it |
| AntiEntropy.RoundIs | src/main.rs:427-466 | for arbitrary data: what a round makes of every partition at a primary that has none of it, one that has some, a backup and anybody else |
| AntiEntropy.LostPrimaryRecovers | src/main.rs:427-449 | a primary that lost a partition gets it back from the first backup in one round; a backup equals it after its own round exactly when it had no other keys |
| AntiEntropy.QuietClusterConverges | src/main.rs:402-470 | from every reachable state, one quiet round at each backup makes all owners of a partition equal |
| Histories.RoundIsRun | src/main.rs:402-470 | a sync round, whoever answers it, is a run of the replication protocol |
| Histories.HistoryIsRun | src/storage/memory.rs:170-333 | every history of writes and rounds from empty stores is a run of the protocol |
| Histories.HistoryConverges | src/main.rs:402-470 | after any such history, one round at each backup makes all owners of a partition equal |
| Durability.ForwardedIs | src/storage/memory.rs:170-205 | a forward of an operation new to the primary has the effect of a single run of the handler; only the answer depends on which attempt is heard |
| Durability.ForwardedAgain | src/storage/memory.rs:219-221 | a forward of an operation the primary has recorded changes nothing and is Ok when answered |
| Durability.PutStores | src/storage/memory.rs:529-568 | what any write, new or repeated, leaves at primary and backups, with and without Ok |
| Durability.OkMeansStored | src/storage/memory.rs:529-568 | for an operation new to submitter and primary, Ok with the first run answered means: an owner holds the value, or it is a backup that submitted or had recorded the operation and its data is unchanged |
| Durability.SyncRestores | src/main.rs:437-448 | after an Ok, a backup's next sync round gives it the value if the operation was new to submitter and primary; otherwise the write changed no data anywhere |
| Durability.RepeatIsEmpty | src/storage/memory.rs:530-532 | whatever came of the first, a write repeated at its node under its identifier is Ok and changes nothing |
| Durability.RepeatAtPrimary | src/storage/memory.rs:530-565 | a primary whose replication failed answers the repeated write with Ok, and the first backup holds what it held |
| Durability.RepeatElsewhere | src/storage/memory.rs:530-550 | if the forward never arrived, the repeated write is Ok and no node holds anything of it |
| Durability.DurableExactly | src/storage/memory.rs:9 | for any state, write and fate of the forward: Ok means all owners hold the value, whatever replication calls do, if and only if the write is safe |
| Durability.DurableOnEveryNetwork | src/storage/memory.rs:9 | Ok means durable on every network if and only if a condition on what was recorded and held before the call |
| Durability.NewValueDurableExactly | src/storage/memory.rs:9 | for a value no owner holds: exactly when the operation is new and there is a single owner, or it is submitted at the primary and no backup has recorded it |
| Durability.SubmittingBackup | src/storage/memory.rs:328-330 | on a network that answers, a write submitted at a backup succeeds and leaves that backup's data unchanged |
| Durability.BackupSubmitsCounterexample | src/storage/memory.rs:9 | two nodes, perfect network: Ok with a single copy |
| Queue.DistributedQueue.StoreLocal | src/executor/queue.rs:116-128 | stored unless present |
| Queue.DistributedQueue.StoreAsPrimary | src/executor/queue.rs:200-218 | stored here and replicated to the backups in order, up to the first failure; ok when all answered |
| Queue.DistributedQueue.Submit | src/executor/queue.rs:59-110 | kept here without owners, stored as primary with Ok exactly when all backups answered, or forwarded to the primary with nothing kept here |
| Queue.DistributedQueue.ApplyPartitionEntries | src/executor/queue.rs:150-160 | entries are added only where the task is unknown |
| Queue.DistributedQueue.MyPendingTasks | src/executor/queue.rs:306-337 | exactly the pending and the expired running tasks of the partitions this node is primary for |
| Queue.DistributedQueue.TryClaimTask | src/executor/queue.rs:355-377 | succeeds exactly on a known pending task, which then runs here under a 30 s lease |
| Queue.DistributedQueue.RenewLease | src/executor/queue.rs:381-400 | extends the lease of a running task and changes nothing else |
| Queue.DistributedQueue.CompleteTask | src/executor/queue.rs:404-427 | a known task ends as completed on success and failed with the message on an error, without a lease |
| Queue.DistributedQueue.LocalTaskStatusCounts | src/executor/queue.rs:177-195 | the four counts are the numbers of stored tasks of each status |
| Queue.ClaimMovesOne | src/executor/queue.rs:177-195 | a claim moves exactly one task from the pending count to the running one |
| QueueLaws.CompletionMovesOne | src/executor/queue.rs:404-427 | a completion of a running task moves exactly one task from running to completed on success, to failed on an error |
| QueueLaws.NewEntryIs | src/executor/queue.rs:72-95 | a submitted task enters pending with its handler and payload, unassigned, without a lease |
| QueueLaws.InsertAllIs | src/executor/queue.rs:150-160 | a dump changes no known task; an unknown one enters as first listed; nothing else appears |
| QueueLaws.ClaimIs | src/executor/queue.rs:355-377 | a pending task becomes running here on a 30 s lease, all else stays; any other claim fails and changes nothing |
| QueueLaws.RenewIs | src/executor/queue.rs:381-400 | only the lease of a running task changes, to 30 s from now |
| QueueLaws.CompleteIs | src/executor/queue.rs:404-427 | a stored task is completed on success, failed with the message on an error, without a lease; no other changes |
| QueueLaws.ListedIs | src/executor/queue.rs:306-337 | listed are exactly the pending and the expired running tasks of the partitions on this ring position |
| QueueLaws.CountsAre | src/executor/queue.rs:177-195 | the counts are the sizes of the sets of stored tasks with each status |
| Executor.TaskExecutor.ExecuteWithLease | src/executor/executor.rs:124-170 | the task ends as completed exactly if its handler succeeded and failed with the message exactly if it erred, without a lease, and no other task changes |
| Executor.TaskExecutor.WorkerPass | src/executor/executor.rs:66-117 | a pass runs exactly one owned pending task if there is any, expired entries or not, and else changes nothing |
| Executor.TaskExecutor.RunUntilIdle | src/executor/executor.rs:66-117 | repeated passes run every owned pending task, as many passes as there were, and end with none |
| QueueCluster.AfterKeepsNode | src/executor/executor.rs:66-170 | whatever a worker does next, its node stays consistent and no task becomes pending again |
| QueueCluster.RunKeepsInv | src/executor/queue.rs:59-427 | the invariant over tables, messages, workers and claims holds in every interleaving |
| QueueSpread.SubmittedReachesOwners | src/executor/queue.rs:59-128 | wherever a task is submitted, there is a continuation after which exactly the owners hold it, pending and as submitted, where it was unknown |
| QueueSpread.DumpSpreads | src/executor/queue.rs:131-160 | any node that does not know a task can come to hold it as another node does, by asking for its partition |
| QueueSafety.ClaimedOncePerNode | src/executor/queue.rs:355-377 | whatever the views and repeated messages, no node claims a task twice |
| QueueSafety.ClaimedOnceInCluster | src/executor/queue.rs:306-377 | if all scans agree on the ring, a task is claimed at most once in the whole cluster |
| QueueSafety.PendingIsClaimable | src/executor/queue.rs:306-377 | the agreement is needed: a node that believes itself primary claims a task pending there, claimed elsewhere or not |
| QueueSafety.WorkersExclusive | src/executor/executor.rs:124-170 | in every interleaving the task a worker holds is running on the lease of its last beat, no other worker of the node holds it, and all entries are coherent |
| QueueSafety.HeldTaskListedExactly | src/executor/queue.rs:306-337 | a held task is listed exactly where it is owned and more than 30 s after its last renewal, its worker alive or not |
| QueueSafety.RenewalOutlivesPanic | src/executor/executor.rs:121-170 | after a panic the renewal can run, keeps the task running on a new lease, and puts off the time from which it is listed |
| QueueSafety.PanickedRenewalRun | src/executor/executor.rs:149-170 | a reachable run in which it does |
| QueueSafety.AbandonedForEver | src/executor/queue.rs:355-377 | a task running at a node without a worker there stays exactly as it is in every continuation |
| QueueSafety.DumpStrandsTask | src/executor/queue.rs:131-160 | a task that a dump of a partition lists as running, unknown to the receiver, stays running there for ever and cannot be claimed there |
| QueueSafety.PanicStrandsTask | src/executor/executor.rs:121-143 | the task of a worker that panics stays running and cannot be claimed at that node, whatever follows |
| QueueSafety.ExpiredIsListedInVain | src/executor/queue.rs:319-361 | at the primary, every running task with an expired lease is listed as available and cannot be claimed |
| QueueSafety.ExpiredLeaseCounterexample | src/executor/mod.rs:13-14 | a three-step run after which an unrenewed task is listed as available and cannot be claimed |
| QueueDrain.FruitlessPass | src/executor/executor.rs:69-116 | in any interleaving with nothing stored at the node: a worker at the end of the list it scanned leaves no owned task pending, expired entries or not |
| QueueDrain.ClaimsDrainPending | src/executor/executor.rs:69-116 | while nothing is stored at a node, every claim there removes exactly one pending task and nothing else does |
| QueueDrain.EnoughScansDrain | src/executor/executor.rs:69-116 | in any interleaving with nothing stored at the node: once a worker has begun more scans than there were pending tasks, no owned task is pending |
| Tokenizer.FindIterFinds | src/search/tokenizer.rs:17-19 | the left-to-right scan finds exactly the matches of the regular expression |
| Tokenizer.TextTokens | src/search/tokenizer.rs:16-22 | a document's tokens are exactly its lower-cased words of three or more letters that stand alone |
| Tokenizer.QueryTokens | src/search/tokenizer.rs:34-44 | a query's tokens are its trimmed words, where the length is taken before trimming |
| Tokenizer.TextTokensAre | src/search/tokenizer.rs:16-22 | on the text itself: the tokens are, in lower case, exactly the stretches of three or more letters with no word character beside them |
| Tokenizer.QueryTokensInOrder | src/search/tokenizer.rs:34-44 | position by position: every word longer than two characters of which trimming leaves something, left to right, repetitions included |
| Tokenizer.TrimIs | src/search/tokenizer.rs:34-44 | trimming takes exactly the characters other than letters and digits off both ends |
| Tokenizer.CaseIsIrrelevant | src/search/tokenizer.rs:16-44 | texts that agree up to the case of letters have the same tokens, as documents and as queries |
| Tokenizer.TokenIsInText | src/search/tokenizer.rs:16-22 | a token is a stretch of the document with its letters in lower case |
| Tokenizer.TokenIsInQuery | src/search/tokenizer.rs:34-44 | a token of a query is a stretch of it with its letters in lower case |
| Tokenizer.TextAgrees | src/search/tokenizer.rs:16-44 | on any text each word of which they agree on, the two tokenizers give the same set |
| Tokenizer.TokenizersAgree | src/search/tokenizer.rs:16-44 | in particular on letters and whitespace |
| Tokenizer.IndexableExactly | src/search/tokenizer.rs:16-22 | a text is a token of some document exactly when it is three or more lower-case letters |
| Tokenizer.IndexedTokenFindsItself | src/search/tokenizer.rs:16-44 | querying an indexed token gives exactly that token |
| Tokenizer.WordAgreesExactly | src/search/tokenizer.rs:16-44 | for a single word, exactly when the two tokenizers agree |
| Indexing.Indexer.IndexDocument | src/main.rs:166-197 | ok exactly when there is no document or every put succeeds; a successful run lists the book under every token of its document, a failed one under some; lists that could not be read start anew, all others are kept |
| Indexing.Indexer.AddTokens | src/main.rs:184-192 | the loop over tokens in any order adds the book once to the lists it reached, all of them exactly when every put succeeds |
| Indexing.ListIs | src/main.rs:184-192 | what a run makes of the list of each token |
| Indexing.PostingsAre | src/main.rs:184-192 | after any runs in any order nobody is listed twice, and exactly the books listed and not forgotten since are |
| Indexing.IndexIsExact | src/main.rs:166-197 | once every book with a run has a successful one and no read failed, a token lists exactly the books whose document contains it |
| Indexing.OrderIsIrrelevant | src/main.rs:166-197 | reordering, repeating or retrying runs does not change what is listed |
| Indexing.NothingIsRemoved | src/main.rs:184-192 | runs whose reads succeed remove nothing, so a changed document keeps its old tokens |
| Indexing.LostReadForgets | src/main.rs:185 | a run that lists its book under a token whose list it cannot read forgets every other book of it |
| Search.ScoreBooks | src/search/engine.rs:36-45 | the scores are the numbers of occurrences in the lists of the query tokens, position by position |
| Search.Hydrate | src/search/engine.rs:49-54 | one hit for each scored book with metadata |
| Search.SortByScore | src/search/engine.rs:57 | a permutation by descending score, equal scores in their order |
| Search.Search | src/search/engine.rs:26-59 | the hits are exactly the books with a positive score and metadata, each once, by descending score |
| Search.ScoreIsBruteForce | src/search/engine.rs:36-45 | on a settled index a score is the number of query positions whose token is in the document |
| Search.SearchIsBruteForce | src/search/engine.rs:26-59 | on a settled index a list is the answer of the search exactly when it is the ranking of a brute-force scan of the documents |
| Search.BrutePositive | src/search/engine.rs:36-45 | a scan finds a document exactly when some query token occurs in it |
| Search.RankingHas | src/search/engine.rs:49-58 | an answer contains a hit exactly when it is the metadata and score of a book with both |
| Search.ScoresIgnoreOrder | src/main.rs:166-197 | the order and number of index runs change no score |
| Search.IndexedTokenIsFound | src/search/engine.rs:36-54 | searching any token of an indexed document finds it, with score one |
| Search.CaseIsIrrelevantToSearch | src/search/engine.rs:36-54 | so does any query that differs from the token only in the case of letters |
| Search.ScoreIsDistinctExactly | src/search/engine.rs:17-18 | the score is the number of distinct matching terms exactly when none is repeated in the query |

## Left out

- Transport: UDP and HTTP, encoding, back-off, jitter and timeouts appear only as messages lost, delayed or repeated.
- Machine integers: incarnations, times and ports do not overflow.
- A handler's several reads of the clock are one reading.
- Atomicity: the gap between lookup and insertion in `src/storage/memory.rs:88-95` and between copying and claiming in
  the queue is closed; each call is one step.
- Misrouting: in `GossipCluster` any sent message may reach any node, which includes more than the network does.
- Membership.MembershipService.GossipRound: takes the random number; the chance of each peer and how fast gossip spreads are
  not considered.
- A node starts once; a restarted program is a new node, since its identifier is drawn anew.
- The pauses of the worker loop between polls.
- Views that change during writes: the storage theorems fix one agreed ring; the per-node queue theorems do not.
- `put_local` (`src/storage/memory.rs:497-514`) has no caller and is not part of this model.
- The stores without owners in `put_with_op` and `submit`: `GossipCluster.SelfAlwaysAlive` shows that a started node
  always has an owner; `Queue.DistributedQueue.Submit` keeps the branch, the storage model drops it.
- Times recorded with processed operations are never read and are dropped.
- `sync_queue_partitions` (`src/main.rs:483-540`): any node may fetch any partition from any node in `QueueCluster`, which
  includes the rounds of the code.
- Remote reads of a task's status (`src/executor/queue.rs:433-536`) are copies of a local entry.
- Task handlers are functions of the task that return; `src/executor/registry.rs` is a table of them.
- The index map behaves as one map, and handler runs do not overlap: two at once can lose each other's update.
- Text is ASCII; Unicode case folding and the rest of the regular expression engine are not part of this model.
- The library's sorts in `NodeOrder.SortIds` and `Search.SortByScore` are insertion sorts here.
- Ingestion (`src/ingestion/`), the HTTP routes, statistics, configuration and the user interface.
