# BlockRaFT: scheduling, commitment and contracts

BlockRaFT executes a block of transactions with many workers, or spread over many
follower nodes, and claims that the block ends as if it had been executed one
transaction after the other. This project models the pieces that carry the claim, and
proves it, with the properties those pieces promise on their own.

**The shared write map** (`SharedMap`). Transactions of a block share one concurrent hash
map. A payload is modelled as a function from the contents it has seen so far to its next
atomic access, so that the accesses of different transactions can be interleaved one by one.

**The reference** (`Block`, `SerialScheduler`). The meaning of a block is the fold of its
transactions in block order. The single-worker scheduler, a class over the in-place matrix
and in-degree arrays of `DagModule`, computes exactly that fold.

**The worker machine** (`TaskCore`, `WorkerMachine`, `ParallelTheorems`, `Progress`,
`FairThreads`, `DagBuild`). One step is one atomic load, compare-exchange, map access, add,
subtract or flag store. The theorems quantify over every block, every number of threads and
every schedule, where a schedule is any sequence of thread numbers. The construction of the
matrix by several threads is a machine of the same kind.

**Components and the cluster** (`Graph`, `DepthFirst`, `UnionFind`, `Assignment`,
`FollowerScheduler`, `Leader`, `Cluster`, `ClusterTheorems`, `ClusterProgress`,
`FairCluster`). Union-find is proved on its arrays. The leader, the followers and the store
between them are one state machine: puts and gets are atomic, the leader reads one status
key per step, a put of a status may fail and is then repeated.

**The Merkle state** (`MerkleTree`, `Subtrees`, `GlobalState`, `ChildOrder`, `NodeCodec`,
`StoredTree`, `StoredRehash`, `RehashedHashes`, `StoredState`, `ParallelFlush`). The hash function is a parameter; what is
used of it is that its digests are hexadecimal and of one positive length (at least 2 where
the root's child list matters). Where digests must differ, this is asked only of the keys in
question. `MerkleTree`, `Subtrees` and `GlobalState` are the tree on node records: the
intended meaning. The code stores strings, and its codec does not give every record back;
`StoredTree`, `StoredRehash` and `StoredState` are the same operations on the strings, and
say how far the intended meaning survives; `RehashedHashes` says what the rehash leaves at
every key, without the search that computes it. The schedulers commit to the strings.

**Contracts** (`Decimal`, `Program`, `Ledger`, `Wallet`, `Voting`, `Cart`, `ECommerce`,
`ContractBlocks`, `Conservation`, `CommaFreeBlocks`). Each verb exists as a program of atomic
accesses, as its effect on a map, and as a method that rewrites the map in place; the three
are proved equal. What each payload does is stated on its fields and on the entries of the map.

**The ring queue** (`RingQueue`). One producer and one consumer, as a class and as a machine
over every load and store.

## How the hypotheses read

- *Well declared*: every address a transaction can look up is one of its declared inputs or
  outputs, and every address it can write is one of its declared outputs. The matrix compares
  inputs with outputs, outputs with inputs and outputs with outputs; an address that is
  touched but not declared is not seen by it. `ContractBlocks` discharges the hypothesis for
  headers that declare the names a call mentions.
- A header that does not parse is selected and never completed
  (singleNode-parallel/scheduler/scheduler.h:59-62); headers are taken as well formed.
- A payload that is not JSON, or lacks a field, or has an unknown verb, fails without
  touching the map.
- The commit needs keys that are not empty: updateParentHashes drops the last character of
  the key first.
- `GlobalState` and `StoredState` are the lazy tree, and with the flag `eager` the tree of
  serialMerkleTree.h; the two sources differ in that one call.

## Findings

| what the code does | where | stated in |
|---|---|---|
| The first record of the root has no children, so it is read back with the digest of the empty string as a child, and the root keeps that child for ever. | BlockRAFT-distributed_node/merkleTree/globalState.h:107-116 | StoredTree.EagerRootThroughCodec |
| One post-order rehash follows the children that childless nodes are read back with. It never gives the intended root hash unless the hash function collides, and the same holds for the root hash of the eager tree as long as no key has the digest of the empty string. The fresh store is the smallest case. | BlockRAFT-distributed_node/merkleTree/globalState.h:288-308 | StoredRehash.LazyRehashMissesIntendedRoot, StoredRehash.StoredRootsAgreeIffCollision, StoredRehash.FreshRootsDiffer |
| That rehash also follows the digest and the value a leaf is read back with as if they were keys, and rehashes the leaf over them. An inner node is left as intended, up to the hashes of its leaves, when no value is the key of an inner node. | BlockRAFT-distributed_node/merkleTree/globalState.h:288-308 | RehashedHashes.LeafHashAfterRehash, RehashedHashes.BuiltThenRehashed |
| A value is cut at its first comma when it is read. Wallet and voting values have none; a cart takes one over from an item name. | BlockRAFT-distributed_node/merkleTree/globalState.h:102-116 | StoredTree.ValueReadsBackIffCommaFree, CommaFreeBlocks.AddedIsCommaFreeIff, CommaFreeBlocks.CommaInItemIsLost |
| A transfer from a name to itself adds the amount, since the second write wins; so does a vote. | singleNode-parallel/smartContracts/wallet/walletProcessor.h:94-108 | Conservation.MovesConserve, Conservation.SelfTransferMakesMoney |

## Model
| member | source | states |
|---|---|---|
| ParallelTheorems.ParallelRunIsSerial | singleNode-parallel/scheduler/scheduler.h:52-85 | for every well-declared block, number of threads and schedule: once all threads have returned, the flag is true iff every transaction succeeds in block order, and then the shared map is the map of the serial run |
| ParallelTheorems.VerdictIsScheduleIndependent | singleNode-parallel/scheduler/scheduler.h:146-166 | two ended runs of one block, under any two thread counts and schedules, agree on the verdict and, on success, on the map |
| ParallelTheorems.ClaimedAtMostOnce | singleNode-parallel/dagModule/DAGmodule.h:182-191 | in every run the successful compare-exchanges on a transaction number 0 while it waits and 1 for ever after, and its in-degree then is -1 or -2, never 0 |
| ParallelTheorems.ClaimedAfterPredecessors | singleNode-parallel/dagModule/DAGmodule.h:182-207 | the in-degree of a waiting transaction is the number of predecessors that have not decremented it; once it is 0 every predecessor has run its whole payload, with its serial verdict |
| ParallelTheorems.NoDeadlock | singleNode-parallel/scheduler/scheduler.h:52-85 | while the flag is up and transactions remain, no thread has returned, and some thread is inside a transaction or some in-degree is 0 |
| ParallelTheorems.WorkIsBounded | singleNode-parallel/scheduler/scheduler.h:52-85 | whatever the schedule, the steps that are not polling are bounded by a quadratic in the block size, so with NoDeadlock a run can only be prolonged by polling |
| Progress.EveryRunCanFinish | singleNode-parallel/scheduler/scheduler.h:52-85 | from every state that any threads reach under any schedule, some continuation lets all of them return |
| FairThreads.FairRunsFinish | singleNode-parallel/scheduler/scheduler.h:52-85 | whatever the threads have done before: after enough rounds in each of which every thread takes a step, in any order and number, all threads have returned |
| FairThreads.FairRoundUsesMeasure | singleNode-parallel/scheduler/scheduler.h:52-85 | each such round uses up some of a bounded measure while a thread is still at work |
| Progress.IdleStepIsNearer | singleNode-parallel/scheduler/scheduler.h:52-56 | with no transaction in progress, a step that claims nothing brings the thread nearer to its next claim or its return |
| WorkerMachine.ReachableInv | singleNode-parallel/scheduler/scheduler.h:52-85 | every state reachable by any threads and schedule satisfies the machine invariant: in-degrees, claim order, one holder per transaction, the flag, and a store that agrees with the settled map |
| TaskCore.StepKeepsInv | singleNode-parallel/dagModule/DAGmodule.h:182-207 | every atomic step of claim, payload access, verdict and complete keeps the core invariant |
| TaskCore.InitInv | singleNode-parallel/dagModule/DAGmodule.h:155-180 | the counters and map a block starts from satisfy the core invariant |
| TaskCore.ReturnSettles | singleNode-parallel/scheduler/scheduler.h:62-81 | when a payload ends, adding its transaction to the settled map is running it alone on that map, and its verdict is the serial one |
| TaskCore.ReleaseKeepsOrder | singleNode-parallel/dagModule/DAGmodule.h:193-207 | one decrement of one successor keeps the in-degree and ordering invariants |
| Block.RunningLastIsRunningInPlace | singleNode-parallel/dagModule/DAGmodule.h:69-101 | executing a transaction last equals executing it in its block position when nothing that conflicts with it ran after it |
| Block.PartialAgreesWithSerial | singleNode-parallel/dagModule/DAGmodule.h:69-101 | a conflict-closed part of the block leaves at an address what the whole prefix leaves, when it contains every writer of that address |
| Block.VerdictIsSerial | singleNode-parallel/scheduler/scheduler.h:77-79 | a transaction whose conflicting predecessors have all run, and no successor, gives the verdict it gives in block order |
| SharedMap.ExecIsLocal | singleNode-parallel/scheduler/scheduler.h:62-75 | a payload sees nothing outside what it may read, changes nothing outside what it may write, and behaves alike on maps that agree on what it may read |
| SharedMap.UnrelatedRunsCommute | singleNode-parallel/scheduler/scheduler.h:62-75 | two payloads neither of which writes what the other may read commute, in map and in verdicts |
| Block.UnrelatedIffNoConflict | singleNode-parallel/dagModule/DAGmodule.h:69-101 | the input/output, output/input and output/output tests find no common address iff neither transaction may write what the other may read |
| DagBuild.ChunksTile | singleNode-parallel/dagModule/DAGmodule.h:57-61 | for any thread count of at least 1 the chunks cover rows 0..n-1, nothing else, and never overlap |
| DagBuild.ParallelBuildIsConflict | singleNode-parallel/dagModule/DAGmodule.h:57-107 | for any thread count and interleaving, when all threads are done a cell is set iff it is an edge of the conflict relation and each in-degree is the number of edges into it |
| DagBuild.ReachableBuildInv | singleNode-parallel/dagModule/DAGmodule.h:57-107 | in every state of the build the set cells and the counters are exactly what the positions of the threads account for |
| DagBuild.WorkersStartFromBuild | singleNode-parallel/dagModule/DAGmodule.h:155-180 | the counters that build leaves are the ones the worker machine starts from |
| DagModule.AnyEqual | singleNode-serial/dagModule/DAGmodule.h:68-103 | the nested comparison loops find an address common to both lists iff there is one |
| DagModule.DAGmodule.DependencyMatrix | singleNode-serial/dagModule/DAGmodule.h:60-107 | the sequential loops leave exactly the conflict matrix and its column sums |
| DagModule.DAGmodule.Create | singleNode-serial/dagModule/DAGmodule.h:194-211 | after create the block, its conflict matrix and its in-degrees are in place |
| DagModule.DAGmodule.SelectTxn | singleNode-serial/dagModule/DAGmodule.h:213-237 | claims the lowest transaction with in-degree 0; returns -1 iff there is none, and then changes neither in-degrees nor lastTxn |
| DagModule.DAGmodule.Complete | singleNode-serial/dagModule/DAGmodule.h:239-253 | lowers the in-degree of the transaction and of exactly its successors and raises the counter, and ignores an index out of range |
| SerialScheduler.Scheduler.ExtractBlock | singleNode-serial/scheduler/scheduler.h:84-97 | a fresh scheduler is ready to run the block |
| SerialScheduler.Scheduler.ProcessTxn | singleNode-serial/scheduler/scheduler.h:62-73 | the access loop computes what running the payload alone computes |
| SerialScheduler.Scheduler.ExecuteTxns | singleNode-serial/scheduler/scheduler.h:53-82 | the results of the selections are 0, 1, 2, ... and never -1; the worker stops after the first failure and ends within the number of unfinished transactions |
| SerialScheduler.NextIsZero | singleNode-serial/dagModule/DAGmodule.h:213-237 | after k completions transaction k has in-degree 0 and none before it has |
| SerialScheduler.DegreesAfterComplete | singleNode-serial/dagModule/DAGmodule.h:239-253 | completing transaction k gives the in-degrees of k+1 completions |
| SerialScheduler.Scheduler.Entries | singleNode-serial/scheduler/scheduler.h:99-104 | every entry of the map is copied once, in some order |
| SerialScheduler.Scheduler.FlushMapToState | singleNode-serial/scheduler/scheduler.h:99-115 | after the flush every key with a distinct digest reads its map value up to the first comma if the map has one, and its old value otherwise, in spite of the rehash of raw keys |
| SerialScheduler.Scheduler.SchedulTxns | singleNode-serial/scheduler/scheduler.h:117-130 | all or nothing: true iff every transaction succeeds in order; then the state is committed to the serial result, otherwise it is untouched |
| SerialScheduler.EntriesCommit | singleNode-serial/scheduler/scheduler.h:99-115 | any order of the entries commits the map: values up to their first comma |
| ParallelFlush.FlushChunksTile | singleNode-parallel/scheduler/scheduler.h:122-136 | the flush chunks cover the entries, each once, for any thread count |
| ParallelFlush.ReachableFlushInv | singleNode-parallel/scheduler/scheduler.h:122-139 | in every interleaving of the puts and gets of concurrent inserts, through the codec, a key reads the value of its stored entry up to its first comma, or else its old value |
| ParallelFlush.ParallelFlushCommits | singleNode-parallel/scheduler/scheduler.h:116-144 | for any thread count and interleaving the finished flush, with the rehash of raw keys after it, commits the map as far as lookups show |
| ParallelFlush.ParallelBlockCommits | singleNode-parallel/scheduler/scheduler.h:146-166 | workers and flush together: the verdict is the serial one; on success the state is committed to the serial result, and on failure it is untouched |
| UnionFind.DisjointSets.constructor | BlockRAFT-distributed_node/dagModule/DAGmodule.h:136-138 | every element starts in its own class, and the rank invariant holds |
| UnionFind.DisjointSets.Find | BlockRAFT-distributed_node/dagModule/DAGmodule.h:141-145 | returns the representative and keeps all classes under path compression; ranks rise along the path and 2 to the recursion depth is at most n |
| UnionFind.DisjointSets.Unite | BlockRAFT-distributed_node/dagModule/DAGmodule.h:148-158 | merges exactly the two classes, keeping that ranks rise along parent links and a root of rank k has at least 2^k members |
| UnionFind.RankIsLogarithmic | BlockRAFT-distributed_node/dagModule/DAGmodule.h:137-158 | 2^rank of any element is at most n |
| UnionFind.LinkKeepsForest | BlockRAFT-distributed_node/dagModule/DAGmodule.h:152-157 | hanging the root of no greater rank under the other keeps the forest invariant |
| UnionFind.CompressKeepsForest | BlockRAFT-distributed_node/dagModule/DAGmodule.h:141-145 | pointing a node at its root keeps the forest invariant |
| UnionFind.ConnectedComponents | BlockRAFT-distributed_node/dagModule/DAGmodule.h:132-193 | the table lists exactly the weak-connectivity classes, ids 0..k-1, members increasing; said on the edges alone: no edge leaves a row, and every set that no edge leaves contains a row or is disjoint from it |
| DepthFirst.DFSUtil | singleNode-parallel/dagModule/DAGmodule.h:109-120 | marks and lists, once each, nodes connected to the start, and leaves no edge between a node it listed and an unmarked one |
| DepthFirst.ConnectedComponents | singleNode-parallel/dagModule/DAGmodule.h:122-137 | the recursive search lists exactly the weak-connectivity classes; on the edges alone, the finest split that no edge crosses |
| Graph.ComponentTablesAgree | BlockRAFT-distributed_node/dagModule/DAGmodule.h:132-193 | any two component tables of a graph have the same classes, so union-find and depth-first search agree |
| Graph.TableIsFinestSplit | BlockRAFT-distributed_node/dagModule/DAGmodule.h:132-193 | a component table is the finest split of the nodes that no edge crosses |
| Graph.NoEdgesMeansSingletons | BlockRAFT-distributed_node/dagModule/DAGmodule.h:132-193 | without edges every node is a row of its own |
| FollowerScheduler.Scheduler.constructor | BlockRAFT-distributed_node/dagModule/DAGmodule.h:212-238 | builds the conflict matrix of the whole block, every in-degree -1 and everything counted as completed |
| FollowerScheduler.Scheduler.DependencyMatrix | BlockRAFT-distributed_node/dagModule/DAGmodule.h:69-118 | fills exactly the rows of its chunk with the conflict relation |
| FollowerScheduler.Scheduler.ColumnSum | BlockRAFT-distributed_node/scheduler/scheduler.h:45-55 | the column sum is the number of predecessors |
| FollowerScheduler.Scheduler.ProcessIndegree | BlockRAFT-distributed_node/scheduler/scheduler.h:116-124 | arms exactly the transactions of the component with their predecessor counts and uncounts them |
| FollowerScheduler.Scheduler.CheckForNewComponents | BlockRAFT-distributed_node/scheduler/scheduler.h:126-133 | true iff the component was not processed before; it is from then on |
| FollowerScheduler.Scheduler.ExtractOne | BlockRAFT-distributed_node/scheduler/scheduler.h:141-146 | an entry is armed iff it is this node's own and new |
| FollowerScheduler.Scheduler.ExtractComponents | BlockRAFT-distributed_node/scheduler/scheduler.h:135-149 | reading a table arms exactly the transactions of own new components and raises updateFlag |
| FollowerScheduler.Scheduler.ExtractNewComponents | BlockRAFT-distributed_node/scheduler/scheduler.h:151-167 | the same at any later time, raising updateFlag only if something was new |
| FollowerScheduler.FirstReadArmsShare | BlockRAFT-distributed_node/scheduler/scheduler.h:135-149 | the first reading leaves the counters the cluster machine starts from: predecessor counts for the share, -1 elsewhere, n minus the share completed |
| FollowerScheduler.RereadChangesNothing | BlockRAFT-distributed_node/scheduler/scheduler.h:126-149 | reading the same table again changes no counter, whatever has been claimed or finished |
| FollowerScheduler.ProcessedIsNeverRearmed | BlockRAFT-distributed_node/scheduler/scheduler.h:126-133 | whatever the owners become, a transaction of a processed component is not armed again |
| FollowerScheduler.PredsAreInComponent | BlockRAFT-distributed_node/scheduler/scheduler.h:45-55 | every predecessor a column sum counts is in the same component |
| FollowerScheduler.Scheduler.SelectTxn | BlockRAFT-distributed_node/dagModule/DAGmodule.h:287-311 | claims the first entry with in-degree 0 after the last claim, or else the first of all, or none iff no in-degree is 0; that is the transaction the machine's selection names |
| Assignment.ShareIsValidJob | BlockRAFT-distributed_node/scheduler/scheduler.h:116-149 | a follower's share is closed under conflicts, so the invariant of TaskCore applies to it |
| Assignment.OwnerIsUnique | BlockRAFT-distributed_node/leader/leader.h:141-167 | every transaction has exactly one owner |
| Assignment.ShareMapAt | BlockRAFT-distributed_node/scheduler/scheduler.h:169-218 | a share leaves the serial value at every address it declares and nothing anywhere else |
| Assignment.ShareMapsAreDisjoint | BlockRAFT-distributed_node/leader/leader.h:243-264 | the maps of two followers have no key in common |
| Assignment.MergeIsSerial | BlockRAFT-distributed_node/leader/leader.h:211-264 | inserting the pairs of all followers' maps, in any order, updates the state as the serial run of the whole block does |
| Leader.LeaderNode.AssignFollowers | BlockRAFT-distributed_node/leader/leader.h:141-167 | component c goes to the (c mod m)-th healthy member, the ids collected are those of the members marked healthy, in list order, each once, and every assigned id is one of them; fails iff there is a component and no member is healthy |
| Leader.HealthyIdsListHealthy | BlockRAFT-distributed_node/leader/leader.h:143-148 | the healthy ids are those of the members marked healthy, in list order, once per member |
| Leader.RoundRobinIsBalanced | BlockRAFT-distributed_node/leader/leader.h:151-157 | the k-th of m members gets n / m components, one more iff k is below the remainder |
| Leader.MakePlan | BlockRAFT-distributed_node/leader/leader.h:356-378 | matrix, union-find and round robin together give a plan the cluster theorems apply to: no conflict leaves a row, no finer split has that, a block without conflicts gets one row a transaction, every owner is a healthy member, and it fails iff there is a transaction and no member is healthy |
| Cluster.LocalStepKeepsNodeInv | BlockRAFT-distributed_node/scheduler/scheduler.h:169-218 | every step in a follower's own memory keeps its invariant, for any share |
| ClusterTheorems.StepKeepsSystemInv | BlockRAFT-distributed_node/leader/leader.h:174-193 | every step of leader, monitor or follower keeps the system invariant |
| ClusterTheorems.ReachableSystemInv | BlockRAFT-distributed_node/leader/leader.h:174-193 | every state the cluster can reach satisfies it |
| ClusterTheorems.FinishMeansDone | BlockRAFT-distributed_node/leader/leader.h:378-403 | whenever the leader writes finish, though the counts were read one by one: every transaction was executed by its owner, successfully and as in block order, and by nobody else, and every follower with work has stored its complete map |
| ClusterProgress.CanFinishIffBlockSucceeds | BlockRAFT-distributed_node/leader/leader.h:378-403 | in every reachable state of the cluster, provided every owner is running and polled: some continuation makes the leader write finish iff every transaction succeeds in block order |
| ClusterProgress.WorkerStepIsNearer | BlockRAFT-distributed_node/scheduler/scheduler.h:174-216 | while the block succeeds, a step of a follower that has not reported makes it report or brings it nearer to that |
| ClusterProgress.LeaderStepIsNearer | BlockRAFT-distributed_node/leader/leader.h:174-193 | once the counts add up, every step of the leader brings it nearer to finish, even from the middle of a round that read older counts |
| ClusterTheorems.ClaimsAreCounted | BlockRAFT-distributed_node/dagModule/DAGmodule.h:287-326 | in every run of the cluster a node claims a transaction once if it no longer waits there, and not otherwise |
| ClusterTheorems.FinishMeansClaimedOnce | BlockRAFT-distributed_node/leader/leader.h:378-403 | at finish the successful compare-exchanges of the whole run on a transaction are one by its owner and none by any other node |
| FairCluster.FairRunsFinish | BlockRAFT-distributed_node/leader/leader.h:174-193 | whatever happened before, puts that failed included: when the block succeeds, enough rounds in each of which the leader and every node take a step lead to finish, for any order and number of steps in a round |
| FairCluster.FairRoundUsesMeasure | BlockRAFT-distributed_node/leader/leader.h:174-193 | each such round uses up some of a bounded measure, or the run is finished |
| ClusterTheorems.CountsAddUpIffAllReported | BlockRAFT-distributed_node/leader/leader.h:174-193 | in every reachable state the counts add up to the block size iff the owner of every transaction has reported |
| ClusterTheorems.UnfinishedCount | BlockRAFT-distributed_node/scheduler/scheduler.h:116-124 | totalTxns minus completedTxns is always the number of own transactions not finished |
| ClusterTheorems.MergeAfterFinishIsSerial | BlockRAFT-distributed_node/leader/leader.h:243-264 | after finish, inserting the stored pairs in any order updates the state as the serial run does |
| MerkleTree.EagerInsertKeepsTree | BlockRAFT-distributed_node/MerkleTreeExperiments/serialMerkleTree.h:118-147 | intended meaning, on node records: an eager insert keeps the tree well formed and every hash the hash of its children's hashes and its value, and has the shape of the lazy insert |
| MerkleTree.LazyInsertKeepsWellFormed | BlockRAFT-distributed_node/merkleTree/globalState.h:118-147 | intended meaning, on node records: a lazy insert keeps the tree well formed: children are exactly the stored one-character extensions, once each |
| MerkleTree.EagerAllKeepsTree | BlockRAFT-distributed_node/MerkleTreeExperiments/serialMerkleTree.h:118-147 | intended meaning, on node records: so does any sequence of eager inserts |
| MerkleTree.RehashPathRepairs | BlockRAFT-distributed_node/MerkleTreeExperiments/serialMerkleTree.h:209-233 | intended meaning, on node records: rehashing a path, longest prefix first, makes a tree that is stale only on that path fully hashed |
| MerkleTree.HashedShapeIsUnique | BlockRAFT-distributed_node/merkleTree/globalState.h:268-309 | intended meaning, on node records: two fully hashed trees of the same shape are the same tree |
| MerkleTree.LazyThenRehashIsEager | BlockRAFT-distributed_node/merkleTree/globalState.h:268-309 | intended meaning, on node records: inserting any pairs lazily and rehashing once gives the tree and root hash of inserting them eagerly |
| MerkleTree.LookupIsLastValue | BlockRAFT-distributed_node/merkleTree/globalState.h:149-153 | intended meaning, on node records: after any inserts, of either kind, a key reads the last value inserted under its digest |
| MerkleTree.RehashPathKeepsValues | BlockRAFT-distributed_node/merkleTree/globalState.h:209-233 | intended meaning, on node records: a rehash along any string changes no value |
| MerkleTree.HashesJoin | BlockRAFT-distributed_node/merkleTree/globalState.h:296-300 | the combined hash of a list of children is their hashes one after the other, in list order |
| ChildOrder.ChildrenInOrder | BlockRAFT-distributed_node/merkleTree/globalState.h:118-147 | after any inserts of either kind the children of every inner node are the prefixes of inserted digests that are one character longer, in the order in which inserts first needed them |
| GlobalStateModule.GlobalState.constructor | BlockRAFT-distributed_node/merkleTree/globalState.h:31-56 | intended meaning, on node records: a fresh state is the empty hashed tree |
| GlobalStateModule.GlobalState.GetValue | BlockRAFT-distributed_node/merkleTree/globalState.h:149-153 | intended meaning, on node records: reads the value stored under the digest of the key |
| GlobalStateModule.GlobalState.PutAndLink | BlockRAFT-distributed_node/merkleTree/globalState.h:118-144 | intended meaning, on node records: puts the leaf and lists the prefixes of its digest, shortest first |
| GlobalStateModule.GlobalState.Insert | BlockRAFT-distributed_node/MerkleTreeExperiments/serialMerkleTree.h:118-147 | intended meaning, on node records: is the lazy or the eager insert and keeps a well-formed tree well formed, in the eager case also hashed |
| GlobalStateModule.GlobalState.UpdateParentHashes | BlockRAFT-distributed_node/MerkleTreeExperiments/serialMerkleTree.h:209-233 | intended meaning, on node records: rehashes every proper prefix, longest first, then the root |
| GlobalStateModule.GlobalState.Dfs | BlockRAFT-distributed_node/merkleTree/globalState.h:290-307 | intended meaning, on node records: rehashes a subtree in post-order, skipping what was seen, and changes nothing outside it |
| GlobalStateModule.GlobalState.UpdateAllNonLeafHashes | BlockRAFT-distributed_node/merkleTree/globalState.h:268-309 | intended meaning, on node records: leaves a tree of the same shape with every hash right |
| GlobalStateModule.BuildBothWays | BlockRAFT-distributed_node/merkleTree/globalState.h:118-147 | intended meaning, on node records: building a tree lazily with one rehash and building it eagerly end in the same store and root hash |
| StoredTree.EagerRootThroughCodec | BlockRAFT-distributed_node/MerkleTreeExperiments/serialMerkleTree.h:118-147 | through the codec, after any eager inserts into a fresh store: the root lists the digest of the empty string before its intended children; its hash is the intended one iff no inserted key has that digest, or the hash function collides on two texts of which one is longer by a digest |
| StoredTree.EagerAllRepresents | BlockRAFT-distributed_node/MerkleTreeExperiments/serialMerkleTree.h:118-147 | through the codec, eager inserts leave every inner node as meant and every leaf with the right hash |
| StoredTree.LazyAllRepresents | BlockRAFT-distributed_node/merkleTree/globalState.h:118-147 | through the codec, lazy inserts leave every inner node as meant and every leaf with the right hash |
| StoredTree.InsertThenLookup | BlockRAFT-distributed_node/merkleTree/globalState.h:118-153 | an inserted value reads back up to its first comma, and every other key keeps its value |
| StoredTree.ValueReadsBackIffCommaFree | BlockRAFT-distributed_node/merkleTree/globalState.h:94-153 | a value just inserted reads back whole iff it has no comma |
| StoredTree.LookupIsLastValue | BlockRAFT-distributed_node/merkleTree/globalState.h:149-153 | after any inserts of either kind a key reads the last value inserted under its digest, up to the first comma |
| StoredTree.RehashPathKeepsValues | BlockRAFT-distributed_node/merkleTree/globalState.h:209-233 | a rehash along any string, a digest or a raw key, changes no value |
| StoredRehash.LazyRehashMissesIntendedRoot | BlockRAFT-distributed_node/merkleTree/globalState.h:268-309 | for any pairs: the root hash after inserting lazily and rehashing once is the digest of a text longer by a digest than that of the intended root |
| StoredRehash.StoredRootsAgreeIffCollision | BlockRAFT-distributed_node/merkleTree/globalState.h:268-309 | for any pairs none of which has the digest of the empty string: the lazily and the eagerly built stores have the same root hash iff the hash function collides on two texts of different lengths |
| StoredRehash.EmptyDigestIsStoredIff | BlockRAFT-distributed_node/MerkleTreeExperiments/serialMerkleTree.h:118-147 | the digest of the empty string is stored iff a key with that digest was inserted |
| StoredRehash.FreshRootsDiffer | BlockRAFT-distributed_node/merkleTree/globalState.h:31-56 | on the fresh store the root hash is the digest of the empty string, and after one rehash the digest of that digest |
| StoredRehash.RehashKeepsLookups | BlockRAFT-distributed_node/merkleTree/globalState.h:268-309 | the rehash through the codec changes no lookup |
| StoredTree.HashesJoin | BlockRAFT-distributed_node/merkleTree/globalState.h:296-300 | the combined hash of a list of children is their stored hashes one after the other, in list order |
| ChildOrder.StoredChildrenInOrder | BlockRAFT-distributed_node/MerkleTreeExperiments/serialMerkleTree.h:118-147 | the same order in the store, for every prefix |
| ChildOrder.StoredRootChildrenInOrder | BlockRAFT-distributed_node/MerkleTreeExperiments/serialMerkleTree.h:118-147 | the same at the root, after the digest of the empty string |
| RehashedHashes.RehashedHash | BlockRAFT-distributed_node/merkleTree/globalState.h:288-309 | any store: after the rehash every key reached from the root, and not from its own children, holds the digest of the new hashes of its children followed by its value |
| RehashedHashes.InnerHashAfterRehash | BlockRAFT-distributed_node/merkleTree/globalState.h:288-309 | in a tree whose values are none of its inner keys that is so at the root and at every inner node |
| RehashedHashes.LeafHashAfterRehash | BlockRAFT-distributed_node/merkleTree/globalState.h:288-309 | a leaf is rehashed over the keys that are its digest and its value: where neither is stored, the digest of that of the empty string, once or twice, followed by the value |
| RehashedHashes.RehashKeepsChildren | BlockRAFT-distributed_node/merkleTree/globalState.h:288-309 | the rehash leaves the children of every record that lists one as they were |
| RehashedHashes.BuiltThenRehashed | BlockRAFT-distributed_node/merkleTree/globalState.h:288-309 | for a store built from any pairs, lazily or eagerly, whose values are none of its inner keys: the root and every inner node hold the digest of the new hashes of their children followed by their value |
| RehashedHashes.PlainBuiltThenRehashed | BlockRAFT-distributed_node/merkleTree/globalState.h:288-309 | the same for any pairs whose values have no comma, are not the name of the root and begin no inserted digest |
| RehashedHashes.BuiltKeepsChildren | BlockRAFT-distributed_node/merkleTree/globalState.h:288-309 | and the children of the root and of every inner node are those listed before |
| StoredStateModule.StoredState.constructor | BlockRAFT-distributed_node/merkleTree/globalState.h:31-56 | a fresh store holds the written root record |
| StoredStateModule.StoredState.GetRootHash | BlockRAFT-distributed_node/merkleTree/globalState.h:89-92 | the hash read back from the root |
| StoredStateModule.StoredState.GetValue | BlockRAFT-distributed_node/merkleTree/globalState.h:149-153 | the value read back from the leaf of the digest |
| StoredStateModule.StoredState.PutAndLink | BlockRAFT-distributed_node/merkleTree/globalState.h:118-144 | the leaf put and the parents rewritten, shortest prefix first, are the specified lazy insert through the codec |
| StoredStateModule.StoredState.Insert | BlockRAFT-distributed_node/MerkleTreeExperiments/serialMerkleTree.h:118-147 | is the lazy or the eager insert through the codec |
| StoredStateModule.StoredState.UpdateParentHashes | BlockRAFT-distributed_node/merkleTree/globalState.h:209-233 | is the specified rehash of every proper prefix, longest first, then the root |
| StoredStateModule.StoredState.Dfs | BlockRAFT-distributed_node/merkleTree/globalState.h:290-307 | the recursive search is the specified walk over the children that are read back, and never leaves the keys and children of the store |
| StoredStateModule.StoredState.UpdateAllNonLeafHashes | BlockRAFT-distributed_node/merkleTree/globalState.h:268-309 | is that walk from the root, and leaves at every key that is reached from the root, and not from its own children, the digest of the new hashes of its children followed by its value |
| StoredStateModule.BuildBothWays | BlockRAFT-distributed_node/merkleTree/globalState.h:118-147 | building the store both ways gives root hashes of two texts which differ in length unless a key has the digest of the empty string |
| SerialScheduler.CommittedValueIffCommaFree | singleNode-serial/scheduler/scheduler.h:99-115 | a committed value reads back whole iff it has no comma |
| SerialScheduler.CommittedExactly | singleNode-serial/scheduler/scheduler.h:99-115 | a map whose values have no comma is committed exactly |
| CommaFreeBlocks.CartIsCommaFreeIffNamesAre | singleNode-parallel/smartContracts/eCommerce/eCommProcessor.h:59-129 | a printed cart has no comma iff no item name has one |
| CommaFreeBlocks.AddedIsCommaFreeIff | singleNode-parallel/smartContracts/eCommerce/eCommProcessor.h:59-92 | adding to contents without a comma gives contents without one iff the item was there or the item and the quantity of the payload have none |
| CommaFreeBlocks.BlockKeepsClean | singleNode-parallel/scheduler/scheduler.h:62-75 | no block of contract calls puts a comma into the map unless an addToCart payload brings one |
| CommaFreeBlocks.CleanBlockReadsBack | singleNode-serial/scheduler/scheduler.h:99-130 | such a block, once committed, reads back exactly |
| CommaFreeBlocks.ContractBlockReadsBack | singleNode-parallel/scheduler/scheduler.h:146-166 | from payloads to committed state, under any interleaving of workers and commit: a successful block that takes no comma over reads back exactly as its calls made one after the other |
| CommaFreeBlocks.CommaInItemIsLost | singleNode-parallel/smartContracts/eCommerce/eCommProcessor.h:59-92 | a concrete cart with a comma in an item name, added with success and read back cut at the comma |
| NodeCodec.SerializeNode | BlockRAFT-distributed_node/merkleTree/globalState.h:94-100 | writes hash, value and children, separated by commas |
| NodeCodec.DeserializeNode | BlockRAFT-distributed_node/merkleTree/globalState.h:102-116 | the positions, wrapping at npos, read exactly the parts between the commas |
| NodeCodec.RoundTrip | BlockRAFT-distributed_node/merkleTree/globalState.h:94-116 | reading back gives the node iff it has a child, no field contains a comma and the last child is not empty |
| NodeCodec.ChildlessRoundTrip | BlockRAFT-distributed_node/merkleTree/globalState.h:102-116 | a childless comma-free node gets hash and value back, and its own hash and non-empty value as children |
| NodeCodec.HeadComesBack | BlockRAFT-distributed_node/merkleTree/globalState.h:94-116 | hash and value without commas come back whatever the children are |
| NodeCodec.LeafComesBack | BlockRAFT-distributed_node/merkleTree/globalState.h:94-116 | a leaf gets its hash back, and its value up to the first comma |
| Decimal.PrintedIsParsed | singleNode-parallel/smartContracts/wallet/walletProcessor.h:28-46 | std::stoi gives back what std::to_string printed |
| Decimal.PrintedShape | singleNode-parallel/smartContracts/wallet/walletProcessor.h:28-46 | std::to_string prints a minus sign iff the number is negative, then digits, the first not 0 unless the number is |
| Decimal.StoiReads | singleNode-parallel/smartContracts/wallet/walletProcessor.h:28-46 | std::stoi skips white space before a number, takes one sign, and stops at the first character that is no digit |
| Decimal.NumeralInBaseTen | singleNode-parallel/smartContracts/wallet/walletProcessor.h:28-46 | a numeral is read in base ten |
| Decimal.StoiThrows | singleNode-parallel/smartContracts/wallet/walletProcessor.h:28-46 | std::stoi throws where no digit follows the white space and at most one sign |
| Program.ExecIsRun | singleNode-parallel/smartContracts/wallet/walletProcessor.h:116-154 | running a program access by access is executing its payload |
| Wallet.VerbsAreConfined | singleNode-parallel/smartContracts/wallet/walletProcessor.h:28-114 | every verb makes at most six accesses, all to the names it mentions |
| Wallet.VerbHasEffect | singleNode-parallel/smartContracts/wallet/walletProcessor.h:28-114 | the accesses of a verb, uninterrupted, come to its effect |
| Wallet.DepositAndWithdraw | singleNode-parallel/smartContracts/wallet/walletProcessor.h:48-86 | when a deposit or withdrawal succeeds, iff, and what it does to every balance |
| Wallet.TransferMoves | singleNode-parallel/smartContracts/wallet/walletProcessor.h:88-114 | when a transfer succeeds, iff, and what it does to every balance, self-transfers included |
| Wallet.WalletProcessor.GetOrLoad | singleNode-parallel/smartContracts/wallet/walletProcessor.h:28-46 | the balance seen, and the entry there from then on |
| Wallet.WalletProcessor.DoDeposit | singleNode-parallel/smartContracts/wallet/walletProcessor.h:48-59 | the in-place method has the effect of the verb |
| Wallet.WalletProcessor.DoWithdraw | singleNode-parallel/smartContracts/wallet/walletProcessor.h:67-86 | the in-place method has the effect of the verb |
| Wallet.WalletProcessor.DoTransfer | singleNode-parallel/smartContracts/wallet/walletProcessor.h:88-114 | the in-place method has the effect of the verb |
| Wallet.WalletProcessor.ProcessTxn | singleNode-parallel/smartContracts/wallet/walletProcessor.h:116-154 | the in-place dispatch leaves the verdict and the map of the access-by-access program; what these are for each payload is in the lemmas that follow |
| Wallet.DepositPayload | singleNode-parallel/smartContracts/wallet/walletProcessor.h:125-133 | verb deposit: succeeds iff the balance under Name and the Value are numbers, and adds Value there and nowhere else |
| Wallet.WithdrawPayload | singleNode-parallel/smartContracts/wallet/walletProcessor.h:134-136 | verb withdraw: succeeds iff, besides, the balance is at least Value, and takes Value from Name only |
| Wallet.TransferPayload | singleNode-parallel/smartContracts/wallet/walletProcessor.h:137-142 | verb transfer: Name1 pays Value to Name2, iff it has the money; all other balances stay |
| Wallet.OtherPayload | singleNode-parallel/smartContracts/wallet/walletProcessor.h:143-154 | an unknown verb, a missing field, or text that is not JSON fails and leaves the map untouched |
| Wallet.DepositOnEntries | singleNode-parallel/smartContracts/wallet/walletProcessor.h:28-59 | a name neither map nor state knows starts from 0, a name in the map from its entry, any other from its value in the state; text without a number fails |
| Wallet.TransferOnEntries | singleNode-parallel/smartContracts/wallet/walletProcessor.h:88-114 | on two names of the map a transfer rewrites their two entries, or nothing when the money is short |
| Voting.VerbsAreConfined | singleNode-parallel/smartContracts/voting/votingProcessor.h:25-143 | every verb makes at most six accesses, all to the names it mentions |
| Voting.VerbHasEffect | singleNode-parallel/smartContracts/voting/votingProcessor.h:54-143 | the accesses of a verb, uninterrupted, come to its effect; entries just loaded are always found again |
| Voting.RegistrationMeans | singleNode-parallel/smartContracts/voting/votingProcessor.h:54-70 | a registration succeeds iff the name is not in the map, and what it does to every count |
| Voting.MoveMeans | singleNode-parallel/smartContracts/voting/votingProcessor.h:72-143 | when votes are moved, iff, and what that does to every count, moves to oneself included |
| Voting.CastVoteMeans | singleNode-parallel/smartContracts/voting/votingProcessor.h:113-143 | a vote is cast iff the voter has one; the voter then has one less and the candidate one more, all others what they had |
| Voting.TransferVoteMeans | singleNode-parallel/smartContracts/voting/votingProcessor.h:72-111 | votes are transferred iff the count is a number and the source has as many; without a number the map stays as it is |
| Voting.VotingProcessor.GetOrLoad | singleNode-parallel/smartContracts/voting/votingProcessor.h:25-52 | the count seen, bad text being 0, and the entry there from then on |
| Voting.VotingProcessor.Move | singleNode-parallel/smartContracts/voting/votingProcessor.h:79-106 | the in-place method has the effect of moving votes |
| Voting.VotingProcessor.ProcessTxn | singleNode-parallel/smartContracts/voting/votingProcessor.h:144-182 | the in-place dispatch leaves the verdict and the map of the access-by-access program; what these are for each payload is in the lemmas that follow |
| Voting.CastVotePayload | singleNode-parallel/smartContracts/voting/votingProcessor.h:113-182 | verb castVote: takes one vote from the name in Voter and gives it to the one in Candidate, iff there is one |
| Voting.TransferVotePayload | singleNode-parallel/smartContracts/voting/votingProcessor.h:72-182 | verb transferVote: takes Count votes from the name in From and gives them to the one in To, iff there are as many |
| Voting.RegisterPayload | singleNode-parallel/smartContracts/voting/votingProcessor.h:54-70 | a voter is entered with one vote and a candidate with none, unless the name is in the map |
| Voting.OtherPayload | singleNode-parallel/smartContracts/voting/votingProcessor.h:144-182 | an unknown verb, a missing field, or text that is not JSON fails and leaves the map untouched |
| Voting.CastVoteOnTexts | singleNode-parallel/smartContracts/voting/votingProcessor.h:25-143 | the counts are read from the map, or else from the state, text without a number being none; the two new entries |
| Cart.RewriteText | singleNode-parallel/smartContracts/eCommerce/eCommProcessor.h:64-81 | the token loop computes the rewriting of the token sequence |
| Cart.AddToText | singleNode-parallel/smartContracts/eCommerce/eCommProcessor.h:59-92 | the method computes the specified new text, or that it throws |
| Cart.RemoveFromText | singleNode-parallel/smartContracts/eCommerce/eCommProcessor.h:94-129 | the method computes the specified new text, or that it fails |
| Cart.PrintedTokens | singleNode-parallel/smartContracts/eCommerce/eCommProcessor.h:66-72 | the tokens of a printed cart are its names and quantities |
| Cart.AddRefinesList | singleNode-parallel/smartContracts/eCommerce/eCommProcessor.h:59-92 | adding to a printed cart prints the cart with the line added |
| Cart.RemoveRefinesList | singleNode-parallel/smartContracts/eCommerce/eCommProcessor.h:94-129 | removing from a printed cart fails iff the list has no such line, and otherwise prints what the list removal leaves |
| Cart.CartStaysGood | singleNode-parallel/smartContracts/eCommerce/eCommProcessor.h:59-129 | names stay words and distinct |
| Cart.CartQuantities | singleNode-parallel/smartContracts/eCommerce/eCommProcessor.h:59-129 | the item's quantity changes as asked, the line goes when nothing is left, all others keep theirs |
| Cart.LinesKeepOrder | singleNode-parallel/smartContracts/eCommerce/eCommProcessor.h:59-129 | a new item is put last, the line of one that is there is changed where it stands or taken out; the order of the lines stays |
| Cart.GoodCartIff | singleNode-parallel/smartContracts/eCommerce/eCommProcessor.h:64-81 | a good cart has words for names, each on one line only |
| Cart.AbsentItem | singleNode-parallel/smartContracts/eCommerce/eCommProcessor.h:59-129 | any quantity text, number or not, is appended as it stands to a cart without the item; removing fails |
| Cart.PresentItem | singleNode-parallel/smartContracts/eCommerce/eCommProcessor.h:59-129 | on a cart with the item both calls throw iff the quantity is no number, and otherwise print the cart with its line raised, lowered or gone |
| ECommerce.VerbHasEffect | singleNode-parallel/smartContracts/eCommerce/eCommProcessor.h:32-144 | the accesses of a verb, uninterrupted, come to its effect |
| ECommerce.AddVerb | singleNode-parallel/smartContracts/eCommerce/eCommProcessor.h:59-92 | on a map entry or committed value that shows a cart, addToCart always succeeds and shows the new lines |
| ECommerce.RemoveVerb | singleNode-parallel/smartContracts/eCommerce/eCommProcessor.h:94-129 | removeFromCart succeeds iff the item is in the cart, and what the entry shows in both cases |
| ECommerce.CheckoutVerb | singleNode-parallel/smartContracts/eCommerce/eCommProcessor.h:45-57 | checkout leaves an empty cart |
| ECommerce.RefillAdds | singleNode-parallel/smartContracts/eCommerce/eCommProcessor.h:131-144 | when a refill succeeds, iff, and what the stock then reads |
| ECommerce.ECommProcessor.GetOrLoad | singleNode-parallel/smartContracts/eCommerce/eCommProcessor.h:32-43 | the contents seen, and the entry there from then on |
| ECommerce.ECommProcessor.DoAddToCart | singleNode-parallel/smartContracts/eCommerce/eCommProcessor.h:59-92 | the in-place method has the effect of the verb |
| ECommerce.ECommProcessor.DoRemoveFromCart | singleNode-parallel/smartContracts/eCommerce/eCommProcessor.h:94-129 | the in-place method has the effect of the verb |
| ECommerce.ECommProcessor.ProcessTxn | singleNode-parallel/smartContracts/eCommerce/eCommProcessor.h:146-178 | the in-place dispatch leaves the verdict and the map of the access-by-access program; what these are for each payload is in the lemmas that follow |
| ECommerce.AddPayload | singleNode-parallel/smartContracts/eCommerce/eCommProcessor.h:59-92 | verb addToCart on a printed cart under Name: the new entry, text for text, for an absent and a present Item and for a Value that is no number |
| ECommerce.RemovePayload | singleNode-parallel/smartContracts/eCommerce/eCommProcessor.h:94-129 | verb removeFromCart on a printed cart under Name: when it fails, and the new entry, text for text |
| ECommerce.CheckoutPayload | singleNode-parallel/smartContracts/eCommerce/eCommProcessor.h:45-57 | verb checkout empties the entry under Name1 |
| ECommerce.RefillPayload | singleNode-parallel/smartContracts/eCommerce/eCommProcessor.h:131-144 | verb refillItem adds Value to the number under Name, 0 if there is nothing, and fails iff one of the two is no number |
| ECommerce.OtherPayload | singleNode-parallel/smartContracts/eCommerce/eCommProcessor.h:146-178 | an unknown verb, a missing field, or text that is not JSON fails and leaves the map untouched |
| ContractBlocks.CallIsPayload | singleNode-parallel/scheduler/scheduler.h:62-75 | a contract call whose touched addresses are declared is a well-declared payload, and run alone has the effect of the call |
| ContractBlocks.ContractRunIsSerial | singleNode-parallel/scheduler/scheduler.h:52-85 | every block of wallet, voting and shop calls, under any threads and schedule, ends with the verdict and map of making the calls one after the other |
| ContractBlocks.ContractClusterIsSerial | BlockRAFT-distributed_node/leader/leader.h:243-264 | the same for any split over followers and any interleaving with the leader, for what the leader merges |
| Conservation.RunConservesTotal | singleNode-parallel/smartContracts/wallet/walletProcessor.h:48-114 | over every successful run, under any schedule, the sum of all amounts changes by exactly deposits minus withdrawals plus registrations; transfers and votes between different names leave it fixed |
| Conservation.MovesConserve | singleNode-parallel/smartContracts/voting/votingProcessor.h:72-143 | a successful transfer or vote leaves the sum of all amounts fixed iff its two names differ or it moves nothing |
| Conservation.MovesLeaveTotalFixed | singleNode-parallel/smartContracts/wallet/walletProcessor.h:88-114 | a block of moves between different names leaves the sum fixed over every successful run, under every schedule |
| Conservation.SelfTransferMakesMoney | singleNode-parallel/smartContracts/wallet/walletProcessor.h:88-114 | a concrete self-transfer that raises the sum |
| Conservation.RunLeavesNoDebts | singleNode-parallel/smartContracts/wallet/walletProcessor.h:67-114 | with non-negative amounts no successful run leaves a negative balance |
| RingQueue.LockFreeQueue.Push | singleNode-parallel/node/transactionQueue.h:24-36 | appends the item, and fails iff all slots but one are in use |
| RingQueue.LockFreeQueue.Pop | singleNode-parallel/node/transactionQueue.h:38-49 | takes the oldest item, and fails iff the queue is empty |
| RingQueue.ReachableRingInv | singleNode-parallel/node/transactionQueue.h:24-49 | every interleaving of producer and consumer loads and stores keeps the ring invariant |
| RingQueue.QueueIsFifo | singleNode-parallel/node/transactionQueue.h:24-49 | for any capacity of at least 2 and any interleaving: popped is a prefix of pushed, at most n-1 items are outstanding, the slot about to be written is not the one about to be read, and a call gives up iff the queue is full, or empty, at that load |

## Left out

- MerkleTree.EagerInsertKeepsTree: on node records; through the codec the root lists one more child, and what else holds is in StoredTree.EagerAllRepresents and StoredTree.EagerRootThroughCodec.
- MerkleTree.LazyInsertKeepsWellFormed: on node records; through the codec see StoredTree.LazyAllRepresents.
- MerkleTree.EagerAllKeepsTree: on node records; through the codec see StoredTree.EagerAllRepresents.
- MerkleTree.RehashPathRepairs: on node records; through the codec see StoredTree.EagerRootThroughCodec.
- MerkleTree.HashedShapeIsUnique: on node records, whose leaves have no children.
- MerkleTree.LazyThenRehashIsEager: on node records; through the codec it is false, see StoredRehash.StoredRootsAgreeIffCollision.
- MerkleTree.LookupIsLastValue: on node records; through the codec see StoredTree.LookupIsLastValue.
- MerkleTree.RehashPathKeepsValues: on node records; through the codec see StoredTree.RehashPathKeepsValues.
- GlobalStateModule.GlobalState.constructor: on node records; through the codec see StoredStateModule.StoredState.constructor.
- GlobalStateModule.GlobalState.GetValue: on node records; through the codec see StoredStateModule.StoredState.GetValue.
- GlobalStateModule.GlobalState.PutAndLink: on node records; through the codec see StoredStateModule.StoredState.PutAndLink.
- GlobalStateModule.GlobalState.Insert: on node records; through the codec see StoredStateModule.StoredState.Insert.
- GlobalStateModule.GlobalState.UpdateParentHashes: on node records; through the codec see StoredStateModule.StoredState.UpdateParentHashes.
- GlobalStateModule.GlobalState.Dfs: on node records; through the codec see StoredStateModule.StoredState.Dfs.
- GlobalStateModule.GlobalState.UpdateAllNonLeafHashes: on node records; through the codec see StoredStateModule.StoredState.UpdateAllNonLeafHashes.
- GlobalStateModule.BuildBothWays: on node records; through the codec see StoredStateModule.BuildBothWays.
- What the lazy rehash and the eager tree have in common when a key with the digest of the empty string is stored; only the distance of each from the intended root is stated then.
- FollowerScheduler.Scheduler.constructor: fills one chunk after the other, because DagBuild shows, on the version that also counts in-degrees, that the interleaving of the threads does not matter.
- Several workers on one follower: after a failed compare-exchange the second scan of the distributed selectTxn goes on with a changed expected value (BlockRAFT-distributed_node/dagModule/DAGmodule.h:301-307), so a follower has one worker here.
- Reassignment after a follower crash (BlockRAFT-distributed_node/leader/leader.h:111-139): health flags are never cleared and the local flag starts uninitialised. ExtractNewComponents is modelled for any table, but no run of the cluster machine changes the table.
- The follower's decision to commit (BlockRAFT-distributed_node/follower/follower.h:397-411), which may read the commit key before the leader writes it.
- A put of a follower's data that fails: the source ignores the reply; the store is taken to have accepted it.
- The text form of the followers' data: the writer uses a protobuf message and the reader splits at semicolons, so the merge is modelled on key-value pairs.
- updateTree (BlockRAFT-distributed_node/merkleTree/globalState.h:170-207): its cache keeps child hashes from before the update.
- The root hash after a flush: updateParentHashes is given raw keys, not digests, and concurrent inserts race on child lists; only lookups are claimed after a flush.
- The pre-pass of updateAllNonLeafHashes over the database iterator, whose result is not used.
- lastTxn of the parallel DAG module, which is stored and never read.
- The NFT contract: image files, values with commas, and map keys without the prefix that its header declares.
- Machine integers: amounts, counters and positions are unbounded, except the string positions of the node codec; std::stoi never overflows.
- Weak memory: the ring and the schedulers are interleavings of atomic steps.
- etcd, RocksDB, Kafka, protobuf, JSON, sockets, the block queue, clients, REST and timing logs; DAGmodulePool.h, whose search follows forward edges only.
