# A model of AICacheDB in Dafny

AICacheDB is a key-value server in C with hand-written index structures, an append-only log
written through io_uring, snapshot files, an RDMA full synchronisation and a packet-capture
forwarder for incremental replication. This project models those parts and proves what they
promise, for every input, every interleaving and every reachable state.

`dafny verify dfyconfig.toml` checks the whole project.

## What is modelled

- **Full synchronisation** (`FullSync`, `FullSyncProof`, `FullSyncWire`, `FullSyncHandlers`). Master
  and slave are state machines joined by in-order reliable queue pairs and a ring of slots in the
  slave's memory. A posted request reads its send buffer when it is executed, and the data WRITE and the CHUNK
  notification of one sequence number share buffer and completion context, as in `rdma.h`. The
  handlers are classes proved to compute the model's step functions.
- **Red-black tree** (`RbShape`, `RbStore`, `RbProof`, `RbEngine`). A store of nodes with parent
  links and one shared, mutable sentinel, updated by single field assignments. The proof carries
  the tree as a zipper: a context with a subtree in its hole.
- **Append-only log** (`Aof`, `AofProof`, `AofWorker`). Producer, worker and kernel as interleaved
  steps over the ring, the 64 requests and the file; completions in any order, writes of any length.
- **Vector index** (`Cosine`, `Candidates`, `Hnsw`, `VectorProof`, `VectorEngine`). Similarities in
  real arithmetic, the bounded candidate array, the layered graph and the table of items.
- **Skip list** (`SkipShape`, `SkipProof`, `SkipEngine`). Forward arrays on a store of nodes, for
  every outcome of the random levels.
- **Framing and connections** (`Resp`, `Streams`, `ServerFrames`, `Reactor`). The client's encoding, the server's
  and the forwarder's parsers, and a connection's two buffers.
- **Capture and replication** (`Tcp`, `Splits`, `ForwarderState`, `ForwarderLog`, `Replication`).
  Reassembly modulo 2^32, where captured commands are lost, the ring of waiting commands, and
  replay over a snapshot.
- **Snapshots and recovery** (`Rdb`, `Replay`). The file format, truncated files, and recovery from
  the log.

`OrderedMap` holds sorted sequences of entries and the dictionary each stands for; the tree and the
skip list share it. `Keys` is the order of `strcmp`.

Four properties one might expect turned out false, and are stated with the exact condition:

- Deleting a tree node with two children moves the successor's key and value but not its expiry
  time (`RbProof.DeleteMovesExpiry`); other keys keep their expiry exactly if the node had at most
  one child or the times agree (`RbProof.ExpiryKeptIff`).
- Full synchronisation completes exactly if the advertised ring fits
  (`FullSyncProof.CompletesIff`): with fewer than 16 slots and more chunks than slots it never
  acknowledges, with more than 64 slots and more than 64 chunks the master fails.
- The forwarder loses captured commands (`Splits.CutLosesCommand`, `Splits.LongCommandLost`). It
  extracts all of them exactly if each is within its limits, no segment ends right behind a `*` or
  `$` of the encoding, and a partly received command always fits the flow's buffer together with
  the next segment (`Splits.ExtractedIff`).
- A MOD that succeeded on the master can stop the slave (`Replication.ModHalts`), exactly if the
  key's last SET or DEL up to the snapshot deletes it after the MOD, and none stands between SYNC
  and the MOD (`Replication.SucceededButHaltsIff`).

Assumptions, each visible in the model: a CHUNK SEND's own completion is polled before the
acknowledgement that the SEND caused (`FullSync.Enabled`); a SEND is executed only while the other
side has a receive posted, which `FullSyncProof.ReceivesSuffice` shows is always so; posted
receives, memory and files do not fail; log writes store at least one byte and report no error (`Aof.Enabled`); the forwarder captures
writes in the order in which the master executes them, and bytes of a connection it gave up are
applied before those of the next, if at all (`Replication`).

## Model

| member | source | states |
|---|---|---|
| `FullSyncProof.BytesReceivedArePrefix` | kvs_repli_slave.c:206-329 | In every reachable state the bytes the slave has written are the first rdb_offset bytes of the snapshot, nothing is loaded before DONE is posted, and then exactly the whole snapshot is installed and loaded, the empty one included |
| `FullSyncProof.NothingFails` | kvs_repli_slave.c:217-280 | In every reachable state neither side has failed, no error status has been raised, and "+DONE" has been answered at most once, exactly when the master is finishing |
| `FullSyncProof.OnlineMeansLoaded` | kvs_repli_master.c:434-449 | A replica is ONLINE only after the slave has loaded exactly the snapshot and read "+DONE" |
| `FullSyncProof.NoUnreadFrameOverwritten` | kvs_repli_master.c:303-375 | A data WRITE about to land overwrites only a frame whose chunk the slave has processed |
| `FullSyncProof.RequestsOwnTheirSlots` | kvs_repli_master.c:460-516 | Every posted or completed request finds its slot in use under its own sequence number and its completion context still describing it |
| `FullSyncProof.ReceivesSuffice` | kvs_repli_slave.c:388-393 | In every reachable state the notifications posted or received and not yet handled number at most min(slots, 64), and so do the acknowledgements; a SEND about to be executed always finds a posted receive |
| `FullSyncProof.AckReleases` | kvs_repli_master.c:451-458 | A cumulative acknowledgement releases exactly the slots up to it, all of which have both bits set |
| `FullSyncProof.PumpFills` | kvs_repli_master.c:378-395 | Pumping sends until the window is full or the snapshot is exhausted, and keeps the master's invariant |
| `FullSyncProof.ChunkAccepted` | kvs_repli_slave.c:217-280 | The slave's checks accept every chunk the master sends, at the moment it is notified |
| `FullSyncProof.StepKeeps` | kvs_repli_master.c:460-605 | Every action of adapter, master and slave keeps the system invariant and uses up work |
| `FullSyncProof.RunKeeps` | kvs_repli_master.c:460-605 | Every run keeps the invariant, and its length is bounded by the work it uses up |
| `FullSyncProof.RunsAreBounded` | kvs_repli_master.c:378-419 | No run takes more than eight actions per chunk and two |
| `FullSyncProof.NoStall` | kvs_repli_master.c:578-604 | If the ring fits, a reachable state in which nothing can happen any more is ONLINE with the snapshot loaded |
| `FullSyncProof.RunsOnToOnline` | kvs_repli_slave.c:745-790 | If the ring fits, every state of a run can be continued to ONLINE |
| `FullSyncProof.CompletesIff` | rdma.h:25-38 | Some run reaches ONLINE if and only if the chunks fit min(slots, 64) or the slot count is from 16 to 64 |
| `FullSyncProof.SmallRingNeverAcks` | kvs_repli_slave.c:320-326 | With fewer than 16 slots and more chunks than slots no acknowledgement is ever sent and the replica stays waiting |
| `FullSyncProof.WideRingFails` | kvs_repli_master.c:303-310 | With more than 64 slots and more than 64 chunks the first pump fails |
| `FullSyncProof.NeverOnline` | kvs_repli_master.c:434-449 | A ring that does not fit never brings the replica online |
| `FullSyncWire.ChunkCount` | kvs_repli_master.c:267-300 | A snapshot is cut into as many chunks of min(slot size - 56, 1048520) bytes as it takes, the empty one into one |
| `FullSyncWire.OwnRingCompletes` | rdma.h:644-645 | With the 64 slots of 1 MiB the slave allocates, every snapshot has a run that ends ONLINE with the snapshot loaded |
| `FullSyncWire.WriteCarriesChunk` | kvs_repli_master.c:312-375 | The WRITE about to land carries its part of the snapshot under the header of its number, in every reachable state |
| `FullSyncWire.AcknowledgesEvery16` | kvs_repli_slave.c:320-326 | Having processed q chunks and not the last, the slave has posted its latest acknowledgement for q - q % 16; it is under way or noted by the master, whose offset and sequence number follow it |
| `FullSyncWire.MessagesSay` | kvs_repli_slave.c:306-326 | Acknowledgements have kind 1, DONE kind 2 for exactly the last chunk, notifications kind 4; number, offset and slot are those of their chunk |
| `FullSyncWire.DeviationsRefused` | kvs_repli_slave.c:217-280 | What an accepted chunk satisfies, and the status 100 to 107 with which each deviation is refused, one changed payload byte included |
| `FullSyncWire.RefusalAnswered` | kvs_repli_slave.c:217-280 | A refused chunk is answered with ERROR and its status, and leaves files and offset alone |
| `FullSyncWire.RepeatRefused` | kvs_repli_slave.c:249-255 | A chunk is taken only once |
| `FullSyncWire.ForeignMessagesFail` | kvs_repli_master.c:557-576 | A message of another magic or kind fails the connection and does nothing else |
| `FullSyncWire.OneByteDetected` | rdma.h:160-173 | Changing any one byte of a payload changes its checksum |
| `FullSyncHandlers.MasterSync.SendNext` | kvs_repli_master.c:267-376 | Sends the next chunk into its slot, is blocked, or fails, exactly as the model's SendOne; nothing else changes |
| `FullSyncHandlers.MasterSync.FillWindow` | kvs_repli_master.c:378-395 | The pump loop computes the model's Pump |
| `FullSyncHandlers.MasterSync.ReleaseCompleted` | kvs_repli_master.c:451-458 | Clears exactly the slots in use with both bits set, each of the 64 |
| `FullSyncHandlers.MasterSync.AnyInflight` | kvs_repli_master.c:97-105 | True exactly if some slot is in use |
| `FullSyncHandlers.MasterSync.SettleNow` | kvs_repli_master.c:397-419 | Releases, pumps and finishes once, as the model's Settle |
| `FullSyncHandlers.MasterSync.MarkAcked` | kvs_repli_master.c:580-584 | Sets the acked bit of exactly the slots in use up to the acknowledged number |
| `FullSyncHandlers.MasterSync.OnRecvComplete` | kvs_repli_master.c:518-605 | A received control message advances the master as the model's MasterRecv |
| `FullSyncHandlers.MasterSync.PollSend` | kvs_repli_master.c:460-516 | Handling the oldest send completion keeps the invariant of the whole protocol and uses up work |
| `FullSyncHandlers.MasterSync.PollRecv` | kvs_repli_master.c:518-605 | Handling the oldest control message keeps the invariant of the whole protocol and uses up work |
| `FullSyncHandlers.MasterSync.Finsync` | kvs_repli_master.c:434-449 | FINSYNC always finds the replica waiting and the snapshot loaded, and brings it online |
| `FullSyncHandlers.SlaveSync.Process` | kvs_repli_slave.c:206-329 | Appends, acknowledges every sixteenth chunk, and commits the last one, as the model's ProcessChunk |
| `FullSyncHandlers.SlaveSync.OnRecvComplete` | kvs_repli_slave.c:331-394 | A notification advances the slave as the model's SlaveRecv |
| `FullSyncHandlers.SlaveSync.PollRecv` | kvs_repli_slave.c:331-394 | Handling the oldest notification keeps the invariant of the whole protocol, raises no status and uses up work |
| `FullSyncHandlers.SlaveSync.PollSend` | kvs_repli_slave.c:355-361 | Handling the oldest send completion keeps the invariant of the whole protocol and uses up work |
| `RbEngine.RbTree.LeftRotate` | kvs_rbtree.c:40-60 | Six pointer assignments turn the subtree at x into its left rotation; keys, order and all other nodes stay |
| `RbEngine.RbTree.RightRotate` | kvs_rbtree.c:63-83 | The mirror image |
| `RbEngine.RbTree.InsertFixup` | kvs_rbtree.c:85-130 | From a red node that may have a red parent, restores a red-black tree with the same entries in order |
| `RbEngine.RbTree.DeleteFixup` | kvs_rbtree.c:181-249 | From a hole that lacks one black level, restores a red-black tree with the same entries in order |
| `RbEngine.RbTree.Minimum` | kvs_rbtree.c:11-16 | Finds the node holding the first entry of a subtree |
| `RbEngine.RbTree.Delete` | kvs_rbtree.c:251-299 | Takes the entry out and restores all red-black invariants; with two children the successor's key and value move into the node and the node's expiry stays |
| `RbEngine.RbTree.Insert` | kvs_rbtree.c:133-179 | Hangs the node in order and restores all red-black invariants, or does nothing if the key is there |
| `RbEngine.RbTree.Search` | kvs_rbtree.c:301-326 | Finds the node of a key if and only if the tree holds it |
| `RbEngine.RbTree.Set` | kvs_rbtree.c:390-417 | The dictionary gains exactly that key; an old entry is deleted first, and that overwrites the successor's expiry time exactly if the old node had two children |
| `RbEngine.RbTree.Get` | kvs_rbtree.c:420-432 | A key without a deadline or with one in the future is answered with its value and stays; one whose deadline is reached gives nothing and is deleted, overwriting the successor's expiry time exactly if its node had two children |
| `RbEngine.RbTree.Del` | kvs_rbtree.c:436-449 | Reports a missing key, or removes it; the successor's expiry time is overwritten exactly if the key's node had two children, and nothing else changes |
| `RbEngine.RbTree.Mod` | kvs_rbtree.c:452-463 | Changes only the value of an existing key |
| `RbEngine.RbTree.Expire` | kvs_rbtree.c:481-490 | Changes only the expiry time of an existing key, or deletes it for 0, with the effect of RDEL |
| `RbProof.DictRemoved` | kvs_rbtree.c:277-292 | Exactly what deleting the i-th entry does to the dictionary, in both cases |
| `RbProof.WideFound` | kvs_rbtree.c:256-260 | Whether the node at the end of the search path has two children is decided by the tree and the key |
| `RbProof.ExpiryKeptIff` | kvs_rbtree.c:277-292 | After deleting a key from a tree, all other keys keep their expiry if and only if the key's node had at most one child or its successor expires at the same time; their values always stay |
| `RbProof.DeleteMovesExpiry` | kvs_rbtree.c:277-292 | A three-node tree in which every deletion of the middle key changes another key's expiry time |
| `RbShape.HeightIsLogarithmic` | kvs_rbtree.c:85-130 | Height at most 2 log2(n + 1) |
| `Keys.LessIff` | kvs_rbtree.c:141-150 | Keys are ordered by the first byte in which they differ, a proper prefix first |
| `AofProof.FileHoldsEverything` | kvs_persistence.c:612-729 | When the worker exits the file is its old contents followed by every published command in order, for every interleaving, completion order and pattern of short writes |
| `AofProof.RequestsTileTheLog` | kvs_persistence.c:664-712 | Requests in use own disjoint ranges inside the log, inflight is their number and equals the writes and completions under way, so the queue is never full; the offset is the length of what was consumed |
| `AofProof.CrashLeavesFinished` | kvs_persistence.c:489-541 | In every state of every run the old contents are intact and every consumed byte that no unfinished request owns is already in its final place in the file |
| `AofProof.NeverStuck` | kvs_persistence.c:655-728 | Once stop is requested and until exit, the worker or the kernel can take a step |
| `AofProof.RunsAreBounded` | kvs_persistence.c:655-728 | Worker and kernel take at most three steps per published byte |
| `AofProof.GatherTakes` | kvs_persistence.c:569-610 | A batch takes consecutive commands in order, at least one, and leaves the rest of the ring alone |
| `AofProof.GatherFills` | kvs_persistence.c:569-610 | A batch ends only where the ring is drained or the next command does not fit; the buffer grows only for a first command that alone exceeds it |
| `AofProof.StepKeeps` | kvs_persistence.c:466-729 | Every step of producer, worker and kernel keeps the invariant and lowers the work left |
| `AofProof.ReapKeeps` | kvs_persistence.c:483-541 | Handling a completion retires a request or resubmits exactly its missing bytes |
| `AofWorker.AofLog.Append` | kvs_persistence.c:903-932 | Refuses an empty command and a failed log, reports a full ring as to be tried again, and otherwise stores the command and publishes it, two steps of the model |
| `AofWorker.AofLog.FindFree` | kvs_persistence.c:562-567 | The first request not in use |
| `AofWorker.AofLog.FillBatch` | kvs_persistence.c:569-610 | The copying loop computes the model's Gather |
| `AofWorker.AofLog.SubmitBatch` | kvs_persistence.c:662-697 | One turn of the worker's inner loop is the model's Submit |
| `AofWorker.AofLog.HandleCompletion` | kvs_persistence.c:489-541 | A completion finishes the request, resubmits exactly the missing bytes, or releases it on an error; the error flag is raised exactly by a negative, empty or unsubmittable completion |
| `AofWorker.AofLog.ReapCompletions` | kvs_persistence.c:484-546 | Empties the completion queue, keeps the invariant, loses no prepared write and raises no error |
| `Cosine.DotLoop` | kvs_vector.c:92-94 | The loop computes the dot product |
| `Cosine.CauchySchwarz` | kvs_vector.c:84-97 | The square of a dot product is at most the product of the squared norms, for vectors of any length |
| `Cosine.SimilarityBounded` | kvs_vector.c:84-97 | Similarities of vectors of positive norm lie in [-1, 1], are symmetric, and are 1 for a vector with itself |
| `Cosine.DistanceLaw` | kvs_vector.c:84-97 | The squared distance of the two vectors scaled to length 1 is 2 - 2 * similarity |
| `Cosine.OrthogonalAndOpposite` | kvs_vector.c:84-97 | Vectors without a common coordinate score 0, opposite vectors -1 |
| `Cosine.CosineSimilarity` | kvs_vector.c:84-97 | The loop computes the similarity, -2 for an empty vector or a norm that is not positive |
| `Candidates.AddSorted` | kvs_vector.c:111-141 | The shifting loop places the candidate behind every score that is not lower, drops the last of a full list, and ignores ids it has |
| `Candidates.Find` | kvs_vector.c:100-108 | Finds an index of the id if and only if there is one |
| `Candidates.KeepsTheTop` | kvs_vector.c:111-141 | Offering candidates one by one to a list of capacity cap keeps exactly the first cap of all of them sorted |
| `Candidates.RankSorts` | kvs_vector.c:111-141 | The reference order is a descending permutation of the offers |
| `Candidates.RankStable` | kvs_vector.c:111-141 | Candidates of equal score stay in the order in which they were offered |
| `Candidates.OfferRefused` | kvs_vector.c:111-141 | A list without room, a negative id and an id already there change nothing |
| `Hnsw.UnscoredIff` | kvs_vector.c:144-159 | -2 marks exactly deleted, missing and wrong-dimension entries; every other score is in [-1, 1] |
| `Hnsw.PruneKeepsTheBest` | kvs_vector.c:304-330 | Pruning keeps exactly the 8 best of the neighbours in order; every neighbour that can be scored competes, and one left out scores no more than any of the 8 kept |
| `Hnsw.PrunedOk` | kvs_vector.c:304-330 | A pruned list has at most M distinct ids of the owner's dimension and level, none the owner |
| `Hnsw.LinkedOk` | kvs_vector.c:333-381 | Linking keeps the graph well-formed and never meets a full list, so that branch is dead |
| `Hnsw.LinkCompetes` | kvs_vector.c:333-381 | After linking, the list holds the 8 best of the old list and the new id in order; every one that can be scored has competed, the new one included |
| `Hnsw.LinkRefused` | kvs_vector.c:333-352 | Tombstones, levels above the entry, unknown ids, the entry itself and ids already listed get no link |
| `Hnsw.ReachStays` | kvs_vector.c:384-475 | Edges of a level lead only to entries of at least that level and of the same dimension |
| `VectorEngine.VectorIndex.Prune` | kvs_vector.c:304-330 | Replaces one neighbour list by its pruned form and nothing else |
| `VectorEngine.VectorIndex.AddNeighbor` | kvs_vector.c:333-381 | Every branch of the linking code, the full list included |
| `VectorEngine.VectorIndex.Greedy` | kvs_vector.c:384-415 | Ends at an entry reached along the level that no neighbour beats and that scores at least as much as the start; it terminates because scores rise |
| `VectorEngine.VectorIndex.SearchLayer` | kvs_vector.c:420-475 | Visits exactly what the expansion order prescribes (each kept candidate in turn, each unvisited neighbour once) and returns exactly the ef best of the start and the scorable entries visited, all reached along edges of the level, the start's neighbours among them |
| `VectorProof.SearchExpands` | kvs_vector.c:446-468 | A level search visits exactly the start and the neighbours of the entries it expands, expands at least as many entries as it returns, and expands every one of them if nothing found later scores better |
| `VectorEngine.VectorIndex.LinkLevel` | kvs_vector.c:502-527 | The new entry's list becomes exactly the M best entries found, in order, each of them is linked back through the pruning rule, no level above changes, and the graph stays well-formed |
| `VectorEngine.VectorIndex.Descend` | kvs_vector.c:495-497 | Descends to an entry of sufficient level that scores at least as much as the entry point and that no neighbour one level above the bottom beats, never to an entry nothing links to |
| `VectorEngine.VectorIndex.LinkDown` | kvs_vector.c:499-528 | On every level from the top shared one down to 0 the entry ends up linked to the M best entries a search of that level found, and later levels undo no earlier one |
| `VectorEngine.VectorIndex.Insert` | kvs_vector.c:477-535 | Keeps the graph well-formed, changes only neighbour lists, links the entry on every level it shares with the graph to the M best of a search there, and makes the entry point an entry of the highest level |
| `VectorEngine.VectorIndex.Attach` | kvs_vector.c:537-552 | Adds exactly the new entry to the table and connects it on every level it shares with the graph |
| `VectorEngine.VectorIndex.Set` | kvs_vector.c:610-667 | Changes the answer and vector of exactly one question, keeps items and questions in bijection, connects the new item on every shared level, and changes nothing on an error |
| `VectorEngine.VectorIndex.GetByKey` | kvs_vector.c:669-683 | Returns the current item of a question if and only if there is one |
| `VectorEngine.VectorIndex.Search` | kvs_vector.c:703-795 | Level 0 is explored from an entry at least as good as the entry point and locally best one level up; results are the best found above the threshold, descending, at most 128; a result is the current answer of its question, with the score that its distance from the query's direction gives, if and only if the score is above -2, and such questions are distinct |
| `VectorProof.SearchSound` | kvs_vector.c:761-790 | The soundness of results for every threshold |
| `VectorProof.Replaced` | kvs_vector.c:637-645 | Exactly one question changes its item, and the item it leaves is the only one deleted |
| `SkipEngine.SkipList.FindPredecessors` | kvs_skiplist.c:103-111 | At every level of the list, the last node with a smaller key that reaches it |
| `SkipEngine.SkipList.Find` | kvs_skiplist.c:156-163 | The first node whose key is not smaller |
| `SkipEngine.SkipList.Set` | kvs_skiplist.c:114-148 | Sets exactly that key, value and expiry, for every level drawn |
| `SkipEngine.SkipList.Insert` | kvs_skiplist.c:131-147 | Splices a node into all its levels, raising the list's level if need be |
| `SkipEngine.SkipList.LinkNew` | kvs_skiplist.c:142-145 | The loop redirects exactly the last tall nodes of the levels of the new node |
| `SkipEngine.SkipList.Get` | kvs_skiplist.c:153-172 | A key without a deadline or with one in the future is answered with its value and stays; one whose deadline is reached gives nothing and is removed |
| `SkipEngine.SkipList.Del` | kvs_skiplist.c:175-201 | Removes exactly that key, unlinking its node at every level, or reports that it is missing |
| `SkipEngine.SkipList.Unlink` | kvs_skiplist.c:186-190 | The loop leads exactly the pointers to the node past it |
| `SkipEngine.SkipList.Trim` | kvs_skiplist.c:192-194 | Afterwards some node reaches the list's level, or it is 0 |
| `SkipEngine.SkipList.Mod` | kvs_skiplist.c:204-223 | Changes only the value of an existing key |
| `SkipEngine.SkipList.Expire` | kvs_skiplist.c:232-249 | Changes only the expiry time of an existing key, or deletes it for 0 |
| `SkipEngine.SkipList.ScanExpired` | kvs_skiplist.c:269-280 | Keeps exactly the keys without a deadline or with one in the future, unchanged |
| `SkipEngine.SkipList.SizeCounts` | kvs_skiplist.c:146-200 | The size is the number of keys |
| `SkipEngine.SkipList.Collect` | kvs_persistence.c:243-247 | The walk over level 0 yields every entry in key order |
| `SkipProof.LevelIsSubsequence` | kvs_skiplist.c:142-145 | The pointers of level i chain exactly the level-0 nodes that reach it, all of them and in the order of level 0 |
| `SkipShape.SplicedLinks` | kvs_skiplist.c:142-145 | After splicing in, every pointer of every node leads to the next node that reaches its level |
| `SkipShape.UnsplicedLinks` | kvs_skiplist.c:186-190 | After splicing out, likewise |
| `Resp.RoundTrip` | kvs-client/kvstore_client.c:176-181 | Parsing an encoded command followed by anything yields its exact length and arguments |
| `Resp.FlowRoundTrip` | xdp/xdp.c:602-654 | The forwarder accepts every encoded command within its limits, with its exact length |
| `Resp.ServerStable` | kvstore.c:46-77 | A complete verdict never changes when bytes are appended |
| `ServerFrames.DoneIff` | kvstore.c:46-77 | For every input: n bytes are taken if and only if they are a whole command, byte for byte |
| `ServerFrames.BadIff` | kvstore.c:46-77 | For every input: refused if and only if it does not begin with a star, or a dollar sign is missing where the next argument should begin |
| `ServerFrames.PartRefusedIff` | kvstore.c:46-77 | A command that has arrived in part is refused if and only if what has arrived ends right before one of its dollar signs; otherwise the parser waits |
| `ServerFrames.StreamPart` | reactor.c:201-234 | The first p bytes of a stream give its whole commands, and the rest is refused if and only if p lies right before a dollar sign |
| `ServerFrames.ArgumentsIff` | kvstore.c:79-146 | Both parsers accept the same commands, except that one without arguments has no argument vector |
| `ServerFrames.DecimalDigits` | kvstore.c:49-53 | The digit i places from the end is the one of weight 10^i |
| `Resp.FlowStable` | xdp/xdp.c:602-654 | For the forwarder also an error that is not a cut is final |
| `Resp.FlowAcceptedByServer` | xdp/xdp.c:572-654 | Whatever the forwarder accepts the server accepts with the same length |
| `Resp.ParseOneCommand` | kvstore.c:46-77 | The loop computes the server's verdict |
| `Resp.ParseArguments` | kvstore.c:79-146 | The loop computes the argument vector |
| `Resp.ReadNumberCrlf` | xdp/xdp.c:572-600 | The loop computes the forwarder's reading of a number |
| `Resp.CommandLen` | xdp/xdp.c:602-654 | The loop computes the forwarder's verdict |
| `Streams.DrainPartitions` | reactor.c:201-234 | Extraction cuts the bytes into commands and a rest, without loss |
| `Streams.DrainSplit` | reactor.c:201-243 | Bytes that arrive later only continue from what was left |
| `Streams.SplitIndependent` | reactor.c:171-250 | Every split of a stream into pieces gives the commands of the whole stream |
| `Streams.WellFormedStream` | reactor.c:201-234 | A stream of encoded commands is taken apart into exactly these commands |
| `Reactor.Connection.SendCb` | reactor.c:135-168 | Moves the taken bytes from pending to sent in order, keeps everything when the socket is full, and closes if and only if a send fails |
| `Reactor.Connection.RecvCb` | reactor.c:171-250 | Executes exactly the commands of all bytes received so far, keeps sent plus pending equal to the replies in order, and closes if and only if nothing was received, the handler fails, or sending fails; unless the bytes end right before a dollar sign, the replies to all whole commands are offered to the socket and it takes as many as it can |
| `Reactor.Connection.AppendReply` | reactor.c:209-226 | Puts a reply behind the pending ones, growing the buffer without loss |
| `Reactor.Connection.ParseLoop` | reactor.c:201-234 | Executes every complete command and leaves the rest; -1 exactly if the parser refuses that rest |
| `Reactor.Connection.Compact` | reactor.c:237-243 | Moves the unparsed bytes to the front |
| `Tcp.OrderRight` | xdp/xdp.c:191-194 | Positions less than 2^31 apart are ordered right by their sequence numbers, across the wrap too |
| `Tcp.NormalizeContinues` | xdp/xdp.c:271-314 | A segment is a gap, a duplicate, or contributes exactly the bytes from the expected position to its end |
| `Tcp.EventExact` | xdp/xdp.c:770-872 | What each kind of segment does to a flow in step: empty, oversized and duplicate ones nothing, truncated ones and gaps a reset, others extend it |
| `Tcp.EventInStep` | xdp/xdp.c:770-872 | Without a reset, an event extends one contiguous range of the stream, taken apart into commands and a buffer |
| `Tcp.CaptureInStep` | xdp/xdp.c:770-872 | For any order of duplicated, overlapping or missing segments, the commands since the last reset and the buffer are those of one contiguous range of the stream |
| `Splits.CommandCut` | xdp/xdp.c:572-656 | A proper prefix of an encoded command is an error for the forwarder if and only if it ends right behind the star or one of the dollar signs; any other prefix is incomplete |
| `Splits.Refused` | xdp/xdp.c:620-641 | A command beyond the limits on count and lengths is an error whatever follows it |
| `Splits.StreamCut` | xdp/xdp.c:838-869 | What the first p bytes of a stream of commands leave in the buffer, and that it is an error if and only if p lies behind a marker |
| `Splits.EventConserves` | xdp/xdp.c:770-872 | An event hands out and keeps no more bytes than it found, and strictly fewer if it resets the flow |
| `Splits.ExtractedIff` | xdp/xdp.c:770-872 | Commands sent in untruncated segments and captured in order are all extracted if and only if each is within the limits, no segment ends behind a marker, and the bytes waiting for the rest of a command fit the buffer together with the next segment; exactly then nothing resets the flow |
| `Splits.CutLosesCommand` | xdp/xdp.c:587-589 | Every command cut behind its star is lost: both segments reset the flow and nothing is extracted |
| `Splits.LongCommandLost` | xdp/xdp.c:828-832 | A command longer than the buffer is lost however it is cut |
| `ForwarderState.FlowState.NormalizePayload` | xdp/xdp.c:271-314 | Every branch of the sequence check |
| `ForwarderState.FlowState.ExtractCommands` | xdp/xdp.c:838-869 | The extraction loop with its in-place shift computes the model's extraction, or resets the flow |
| `ForwarderState.FlowState.HandleEvent` | xdp/xdp.c:770-872 | One captured segment does what the model's event does |
| `ForwarderState.Wal.Push` | xdp/xdp.c:353-400 | Appends the command under the next number, or refuses it at the limits and changes nothing |
| `ForwarderState.Wal.PopHead` | xdp/xdp.c:402-419 | Drops the head and records its number as acknowledged |
| `ForwarderState.Wal.Clear` | xdp/xdp.c:316-331 | Empties the ring and restarts the numbers |
| `ForwarderState.Wal.Flush` | xdp/xdp.c:548-570 | Drops exactly the acknowledged commands; the rest stays for the next attempt |
| `ForwarderLog.CaptureWrite` | xdp/xdp.c:757-761 | Pushing a command performs the log part of the capture step of replication, or refuses at the limits |
| `ForwarderLog.AckHead` | xdp/xdp.c:402-419 | Dropping the head performs the log part of the acknowledgement step |
| `ForwarderLog.StartSync` | xdp/xdp.c:733-742 | Clearing the ring performs the log part of the SYNC step |
| `ForwarderLog.FlushLog` | xdp/xdp.c:548-570 | Flushing performs one delivery and one acknowledgement for each command it drops |
| `Replication.ReplayOverSnapshot` | xdp/xdp.c:721-768 | Replaying all commands over a state that already contains the first j of them gives the state after all of them |
| `Replication.LogIsConsecutive` | xdp/xdp.c:353-419 | In every reachable state the log numbers consecutively, from last_acked_seq + 1, exactly the writes not yet acknowledged |
| `Replication.PrefixConsistent` | kvs_repli_slave.c:445-487 | Once the slave has replayed past its snapshot, its store is the master's store after a prefix of the writes |
| `Replication.Converges` | kvs_repli_slave.c:445-487 | With everything executed and acknowledged, slave and master hold the same store, despite writes being in both snapshot and log and despite resends |
| `Replication.CanConverge` | xdp/xdp.c:548-570 | Without MOD an online slave can always be brought level with the master |
| `Replication.NeverHalts` | kvs_repli_slave.c:465-484 | Without MOD the slave never stops |
| `Replication.HaltsIff` | kvs_repli_slave.c:465-484 | A delivery stops the slave if and only if it is the first of a MOD whose key is missing, by its last SET or DEL between SYNC and the MOD, or else in the snapshot's part of the history, or else in the initial store |
| `Replication.SucceededButHaltsIff` | kvs_repli_slave.c:465-484 | A MOD that found its key on the master stops the slave if and only if the last SET or DEL of the key from the MOD to the snapshot is a DEL and none stands between SYNC and the MOD |
| `Replication.ModHalts` | kvs_repli_slave.c:465-484 | A run in which a MOD that succeeded on the master stops the slave |
| `Rdb.ReadRecOf` | kvs_persistence.c:93-103 | A record with strings of fewer than 2^31 bytes and any 64-bit deadline is read back exactly, whatever follows it |
| `Rdb.EveryEntryReadBack` | kvs_persistence.c:355-424 | Every key and value of fewer than 2147483648 bytes without a zero byte, with any 64-bit deadline, is read back and set, for each of the four engines |
| `Rdb.RecordLayout` | kvs_persistence.c:93-103 | Where type, deadline, lengths and strings of a record lie |
| `Rdb.LeBytes` | kvs_persistence.c:93-103 | Byte i of a number is the one of weight 256^i |
| `Rdb.ReadStrFails` | kvs_persistence.c:360-373 | A string cannot be read if and only if its length is missing, negative as an int, or beyond the data |
| `Rdb.UnknownSkipped` | kvs_persistence.c:394-419 | A record of an unknown type is read over |
| `Rdb.VectorSetIff` | kvs_persistence.c:297-353 | A vector record is set if and only if its dimension is positive as an int |
| `Rdb.CutAtZero` | kvs_persistence.c:389-392 | A string is set up to its first zero byte |
| `Rdb.Load` | kvs_persistence.c:282-424 | The loop applies records until the data ends or a record is incomplete |
| `Rdb.LoadSaved` | kvs_persistence.c:282-424 | Loading a saved file applies its records in order and no others |
| `Rdb.LoadTruncated` | kvs_persistence.c:282-424 | Loading the first n bytes of a file applies exactly the records wholly contained in them |
| `Rdb.WholeIsMost` | kvs_persistence.c:282-424 | Those are the most records whose encoding fits into n bytes |
| `Rdb.SaveTreeInOrder` | kvs_persistence.c:105-111 | The recursive walk writes the tree in key order |
| `Rdb.SaveLoad` | kvs_persistence.c:215-250 | Saving all engines and loading the file into empty ones gives back every key, value and expiry time of each engine, and the vector records |
| `Replay.SkippedIsNoChange` | kvs_command.c:190-225 | A command that is not logged leaves the store as it was |
| `Replay.LoggedIff` | kvs_command.c:190-225 | A command of a history is logged if and only if it is a SET or finds its key |
| `Replay.ExecLiteral` | kvs_persistence.c:761-776 | What SET, DEL and MOD do, from their bytes to the store |
| `Replay.ReplayPersisted` | kvs_command.c:227-237 | Replaying only the logged commands gives the store of the full history |
| `Replay.LoadLog` | kvs_persistence.c:732-781 | Loading hands exactly the complete commands of the file in order to the command handler, whatever the handler and its state |
| `Replay.LogRebuildsStore` | kvs_persistence.c:761-776 | End to end: once the log worker has exited, under any interleaving, loading the file rebuilds the store of the full history of SET, DEL and MOD |

## Left out

- Sockets, epoll, RDMA verbs and connection setup, io_uring internals, fork, fsync and file renaming: foreign calls, present only as abstract steps.
- Allocation failures: allocation is assumed to succeed; the identity of a new tree or list node is a parameter.
- I/O errors of the log: the handlers release the request and raise the error flag, but the results about whole runs are for an error-free kernel; the mode that writes each command with fwrite and fsync is not modelled.
- Integer overflow of counts and lengths in the server's parsers: the C code's behaviour is undefined there, the model's numbers are unbounded.
- Embedded zero bytes in arguments: the engines see C strings; the model keeps the whole argument, except in snapshot files, where the cut at the zero byte is modelled.
- Floating-point rounding, and the text form of vectors: similarities are real numbers, and the norm is any non-negative root of the sum of squares passed in; parse_vector appears as an optional result.
- Completeness of vector search: the exact fallback is disabled in the source, so only what was visited is promised.
- The vector index's tree of questions is an abstract map; its engine is the red-black tree above.
- EXPIRE and SETEX in replay and replication: replay recomputes the deadline from the current clock.
- kvs_rbtree_scan_expired: it keeps node pointers across deletions that move payloads between nodes, and its scanner is not started.
- TTL, which only reads, and EXIST, which deletes an expired key as get does.
- kvs_array.c and kvs_hash.c: simpler map engines, abstract dictionaries here.
- Replicated commands sent before the first SYNC, and WAL limits that stop the forwarder.
- The table of flows, the parsing of command names and the table of write commands in the forwarder.
- The pool allocator, configuration, the other network front ends, the clients' input handling and vendored code.
