# Verification of the HurriCache C++ client

A Dafny model of the parts of the client library that hold state, loops or arithmetic, with proofs of what
callers rely on. `dafny verify dfyconfig.toml` checks everything.

| file | what it models |
|---|---|
| `Chunks.dfy` | the greedy packers and the first-chunk split of the smart client |
| `Inserts.dfy` | the list on the server, and the call lists a chunked insert is replayed as |
| `Pipelines.dfy` | the sequential pipeline and the list add methods, as methods on a remote list |
| `Interleaving.dfy` | other clients pushing between the chunks of one insert |
| `Containers.dfy` | chunked container creation and chunked map inserts |
| `Routing.dfy`, `RoutingRuns.dfy` | the routing table as a class, and every interleaving of its operations, split where the mutex is taken and released |
| `Streams.dfy` | the asynchronous stream call and the merge of routing chunks |
| `Failover.dfy` | endpoint choice, redirects and failover |
| `Refresh.dfy` | the topology refresh, against other refreshes and shutdown |
| `Hashes.dfy`, `Mux.dfy` | the CRC32C key hash and the 64x64 to 128 bit product |
| `Codec.dfy` | building and parsing of wire keys and values |
| `Common.dfy` | options, results, sequences of blocks |

## How the world outside is modelled

* The server's containers are a sequence, a set or a map. A batch goes in as one block in element order, a
  pivot is found by its first occurrence, and a failed call has no effect. What a server does with a position
  past the end, with a pivot that is absent (`Inserts.Policy`), or with a create request for a key that has a
  container already (`RemoteContainer.startsOver`) is a parameter: every result holds for both answers unless
  it names one.
* Items carry an identity next to their value. No operation reads it; it lets equality of lists tell apart two
  occurrences of one value. A server stores values only, so for lists of values each condition below that is
  exact for items is sufficient, and the witnesses show that it is needed.
* The network is a function from the number of a call to whether it gets through and the count reported.
  Ghost logs on the remote objects record every call that was sent.
* Estimated sizes are an arbitrary function to the naturals, without overflow of sums. Unsigned 32 and 64 bit
  arithmetic that can wrap (positions, result totals, hashes, products, length fields) is written out.
* Clients are identified by a number given out at creation, next to their target, in place of object addresses.
* Compression is an arbitrary pair of functions, with losslessness assumed where a round trip is stated.
* Threads are an arbitrary finite set; a run is any sequence of atomic steps, one per critical section or
  atomic access.

## Where the code departs from what it promises

Each of these is proved, with the exact condition or a concrete run.

* A positional insert in chunks advances a 32 bit position. It equals the unsplit insert if and only if the
  position of the last chunk does not wrap (`PositionExact`, `WrapWitness`).
* An insert before or after a pivot chains its chunks by value. It equals the unsplit insert if and only if
  every anchor is fresh (`BeforeExact`, `AfterExact`, `StaleAnchorWitness`).
* With a null pivot, or an absent one that the server ignores, nothing is added in one chunk, but later chunks
  are still sent; they add something exactly when an anchor happens to be in the list (`NoPivotExact`).
* The fallback of `mux64` drops a carry. It is exact for every multiplicand if and only if the halves of the
  multiplier sum to at most 2^32: true of `Prime_1`, false of `Prime_0` (`PortableExact`, `PrimesDiffer`).
* When a chunk accumulator throws, the status it sets is overwritten by the status of `Finish`; a server that
  closes normally turns the failure into a success with a partial result (`ThrownErrorIsLost`). The caller
  learns of it if and only if the server closed with a failure of its own (`ThrownErrorSurfaces`).
* A coordinator stream can succeed with zero shards, for which the shard computation divides by zero: exactly
  when no chunk announces a nonzero count, as in an empty stream (`ShardsMerged`, `EmptyStreamMeansNoShards`).
  Once it is installed, the computation is defined if and only if some chunk announced one, and all its results
  are valid indices if and only if the first such count is below 2^31 (`InstalledShards`).
* The two routes of a call are looked up under separate locks. A node that changes its role in between is found
  in neither, although the shard has an endpoint all the time (`RoleSwapWitness`); a call finds no endpoint if
  and only if the master is absent at the first lookup and the backup at the second (`FirstAttempt`).
* Redirects alone can keep a call going forever, between any two nodes (`PingPong`); the attempts are bounded by the redirects
  (`AttemptBound`).
* Shutdown can end with the client ready (`ReadyBetween`): from the moment it has cleared the ready flag, if and
  only if the flag is set again already or some refresh can still come to an answer, which means one that has a
  coordinator left to ask while the coordinator client is up, and one that is underway afterwards
  (`ReadyAfterShutdown`). After it, a coordinator's data comes back if and only if a request is in flight or its
  answer is not yet installed (`DataAfterShutdown`).
* Without any new update or lookup the emptied routing table is filled again if and only if some lookup had
  missed and has yet to recheck (`RefillExact`, `RefillAfterShutdown`).
* A byte value of 2^32 bytes or more that is compressed comes back as a prefix (`ValueRoundTrip`).

## Model

| member | source | states |
|---|---|---|
| Chunks.PartitionValueChunks | smart/src/smart_client.cpp:183-221 | The chunks concatenate to the input in order; none is empty; each is a single element or fits the limit; no chunk could have taken the next element; no other admissible partition has fewer chunks |
| Chunks.PackStep | smart/src/smart_client.cpp:189-198 | One round keeps closed chunks plus the open one an admissible tight partition of what was read, with the running size equal to base plus estimates |
| Chunks.GreedyIsOptimal | smart/src/smart_client.cpp:183-201 | A tight partition needs no more chunks than any admissible one, oversized single elements included |
| Chunks.GreedyStaysAhead | smart/src/smart_client.cpp:183-201 | The same where the tight partition covers only a suffix of what the other covers: greedy only gets further ahead |
| Chunks.ChunkEndsBy | smart/src/smart_client.cpp:191-195 | No admissible chunk spans a whole tight chunk and the element behind it |
| Chunks.FirstChunkSplit | smart/src/smart_client.cpp:277-292 | A prefix length is at most the split if and only if that prefix fits the limit |
| Chunks.MaxRpcSize | smart/src/smart_client.cpp:380-386 | Seven eighths, rounded up, of 4 MB or of the channel's message size, whichever is larger |
| Inserts.FirstIndex | standalone/src/standalone_client.cpp:745-793 | Pivots are located by their first occurrence, or not at all |
| Inserts.Follows | smart/src/smart_client.cpp:649-654 | A run over calls that lead from state to state stops in the state before the first call that fails |
| Inserts.TailPrefix | smart/src/smart_client.cpp:1270-1279 | A tail append that stops after k calls has appended exactly the first k chunks, and call k is the first that failed |
| Inserts.HeadSuffix | smart/src/smart_client.cpp:1298-1309 | A head push that stops after k calls has pushed exactly the last k chunks, in order |
| Inserts.PlacementPrefix | smart/src/smart_client.cpp:1328-1342 | If every chunk lands behind its predecessor, a run that stops after k calls has inserted exactly the first k chunks at the insert point |
| Inserts.PlacementExact | smart/src/smart_client.cpp:1328-1342 | A complete run equals the unsplit insert if and only if every chunk landed right behind its predecessor |
| Inserts.StrayChunk | smart/src/smart_client.cpp:1328-1342 | After the first chunk that lands elsewhere no later call can mend the list |
| Inserts.Misplaced | smart/src/smart_client.cpp:1328-1342 | No sequence of inserts turns a list with a block at the wrong place into the unsplit insert |
| Inserts.PrecedesPipeline | smart/src/smart_client.cpp:649-654 | No pipeline changes the order of two items already in the list |
| Inserts.PositionPlaces | smart/src/smart_client.cpp:1331-1341 | Chunk k goes to the position advanced by the earlier chunks modulo 2^32, or to the end on a clamping server |
| Inserts.PositionExact | smart/src/smart_client.cpp:1312-1343 | Inside the list the chunked positional insert equals the unsplit one if and only if the last chunk's position stays below 2^32 |
| Inserts.PositionPastEndExact | smart/src/smart_client.cpp:1312-1343 | Past the end, on a clamping server, they are equal if and only if no wrapped position falls back inside the list |
| Inserts.WrapWitness | smart/src/smart_client.cpp:1340 | At position 2^32 - 1 the second chunk goes to the head of the list, which the unsplit insert does not do |
| Inserts.AnchorStands | smart/src/smart_client.cpp:1378-1384 | The anchor is always found, and what is found is the previous chunk's last item if and only if the anchor is fresh |
| Inserts.ChainExact | smart/src/smart_client.cpp:1363-1388 | Chunks chained by anchors equal the unsplit insert if and only if every anchor is fresh |
| Inserts.ChainPrefix | smart/src/smart_client.cpp:1363-1388 | With fresh anchors a chained run that stops after k calls has inserted exactly the first k chunks |
| Inserts.BeforeExact | smart/src/smart_client.cpp:1345-1389 | Chunked insert-before equals the unsplit insert before the pivot's first occurrence if and only if every anchor is fresh |
| Inserts.AfterExact | smart/src/smart_client.cpp:1391-1434 | The same for insert-after, where the pivot belongs to the part the anchors must avoid |
| Inserts.StaleAnchorWitness | smart/src/smart_client.cpp:1363-1388 | Inserting 8 and 9 as two chunks before 5 in the list 8, 5 gives another list than inserting them at once |
| Inserts.AnchorsMiss | smart/src/smart_client.cpp:1423-1430 | A run of anchored calls leaves the list alone if and only if no anchor it reaches is in the list |
| Inserts.PivotMissing | standalone/src/standalone_client.cpp:745-793 | Before and after alike, an insert adds nothing exactly when the pivot is null, or absent on a server that ignores that; it fails exactly when the pivot is absent on one that rejects it |
| Inserts.PivotRejected | smart/src/smart_client.cpp:1345-1434 | When the server rejects the pivot, the chunked insert fails at its first chunk and changes nothing |
| Inserts.NoPivotExact | smart/src/smart_client.cpp:1363-1388 | When the first chunk adds nothing, the chunked insert adds nothing if and only if no later anchor that is reached occurs in the list |
| Pipelines.RemoteList.Invoke | standalone/src/standalone_client.cpp:658-793 | One remote call: it is logged, takes effect as a block, or fails and changes nothing |
| Pipelines.RunAddPipeline | smart/src/smart_client.cpp:643-662 | The list and the calls sent are those of the pipeline up to and including the first failure; success if and only if all got through, with the counts summed modulo 2^32 |
| Pipelines.CountsAreReported | smart/src/smart_client.cpp:650-655 | The total is the sum of the counts the server reports; a first call with a null pivot contributes none |
| Pipelines.BuildPositionCalls | smart/src/smart_client.cpp:1328-1341 | The loop with a 32 bit running position builds exactly the positional calls, position plus elements sent before modulo 2^32 |
| Pipelines.BuildHeadCalls | smart/src/smart_client.cpp:1298-1308 | The reverse loop pushes the chunks last to first |
| Pipelines.BuildTailCalls | smart/src/smart_client.cpp:1270-1278 | One append per chunk, in order |
| Pipelines.BuildChainCalls | smart/src/smart_client.cpp:1365-1387 | The first chunk at the pivot, every later one after the last value of its predecessor |
| Pipelines.SendChunks | smart/src/smart_client.cpp:1328-1342 | What a pipeline over a partition sends are admissible chunks only, no more than the partition has |
| Pipelines.SentPrefix | smart/src/smart_client.cpp:649-654 | The elements of the first k chunks are a prefix of the data, and all of it exactly when no chunk remains |
| Pipelines.AddElementToTail | smart/src/smart_client.cpp:1254-1280 | The list grows at the tail by a prefix of the data, all of it exactly on success; a failure means that the last request sent did not get through, a success that all did; every request fits the limit, their number is minimal, the reported counts are summed modulo 2^32 |
| Pipelines.AddElementToHead | smart/src/smart_client.cpp:1282-1310 | The list grows at the head by a suffix of the data in order, all of it exactly on success; success, failure and requests as for the tail |
| Pipelines.AddElementToPosition | smart/src/smart_client.cpp:1312-1343 | Always the pipeline of positional calls of some partition; inside the list below 2^32 the unsplit insert of a prefix of the data, all of it exactly on success, which fails only at a request that did not get through; a rejecting server leaves the list as it was |
| Pipelines.PositionRejected | smart/src/smart_client.cpp:1312-1343 | On a server that rejects positions past the end the first chunk already fails and nothing is inserted |
| Pipelines.AddElementAtPivot | smart/src/smart_client.cpp:1345-1434 | Always the pipeline of chained calls of some partition; with values that are distinct and new in front of the insert point the unsplit insert of a prefix of the data, all of it exactly on success, which fails only at a request that did not get through |
| Pipelines.FreshValuesAnchor | smart/src/smart_client.cpp:1378-1384 | Data with distinct values, none in front of the insert point, has only fresh anchors, however it is chunked |
| Interleaving.MineUndisturbed | smart/src/smart_client.cpp:649-654 | In any interleaving of pushes this client's items read as if its calls had run alone |
| Interleaving.OthersUndisturbed | smart/src/smart_client.cpp:649-654 | And the others' items read as if this client had never called |
| Interleaving.InterleavedTail | smart/src/smart_client.cpp:1270-1279 | The items of a tail append of which k chunks got through are exactly the first k chunks, in order, whatever was pushed in between |
| Interleaving.InterleavedHead | smart/src/smart_client.cpp:1298-1309 | The items of a reversed head push of which k calls got through are exactly the last k chunks, in order |
| Containers.RemoteContainer.Create | smart/src/smart_client.cpp:683-694 | A create either gives the container exactly the elements of its request or, refused or failed, changes nothing; a key that has a container already is covered under both policies |
| Containers.RemoteContainer.Add | smart/src/smart_client.cpp:704-710 | A push extends a queue, list or vector at its tail, or adds to the elements of a set; a failed one changes nothing |
| Containers.CreateUnorderedContainer | smart/src/smart_client.cpp:664-714 | When the first request is refused nothing changes and nothing else is sent; otherwise the container holds a prefix of the data (as a set for SET), all of it exactly on success, and a failure means that the last request sent did not get through; the first request is the longest prefix fitting with base 128, the others are admissible chunks with base 0, as few as any admissible partition of the rest has |
| Containers.PushRemainder | smart/src/smart_client.cpp:618-641 | The remainder sender stops at the first request that does not get through, with exactly the chunks before it added |
| Containers.SendRemainder | smart/src/smart_client.cpp:700-713 | What is left over arrives as a prefix, all of it exactly on success; a failure means that the last request sent did not get through; as few requests as any admissible partition has |
| Containers.ValuesLength | smart/src/smart_client.cpp:242-243 | A chunk has as many values as keys if and only if no entry had a null value, and then value i is that of entry i |
| Containers.PartitionMapChunks | smart/src/smart_client.cpp:228-275 | The chunks are a tight admissible partition of the entries by estimated pair size, each with its null values dropped; joined they are the input's keys and its values without the nulls |
| Containers.StrippedJoin | smart/src/smart_client.cpp:228-248 | The keys of all chunks joined are the input's keys, and their values the input's values without the nulls, in order |
| Containers.PairTotal | smart/src/smart_client.cpp:234-244 | A chunk of pairs is as large as its keys, its values and 32 for each pair |
| Containers.RemoteMap.AddBatch | standalone/src/standalone_client.cpp:1152-1210 | Key and value lists of different length are refused without a request; otherwise the pairs at equal indices are stored in order, or the call fails and changes nothing |
| Containers.StripPairs | standalone/src/standalone_client.cpp:1161-1179 | A chunk is accepted if and only if it lost no value, and then its pairs are the entries |
| Containers.PutAllSplit | smart/src/smart_client.cpp:1743-1752 | Storing pairs in two batches is storing them in one |
| Containers.PutAllExact | smart/src/smart_client.cpp:1743-1752 | After storing pairs each key has the value of its last occurrence, and other keys are as before |
| Containers.AddElementMap | smart/src/smart_client.cpp:1710-1792 | For the first values sent, none of them null, each is stored under the key at its own index, later ones over earlier ones, and other keys are as before; joined, the batches are a prefix of the keys with the values at the same indices; all pairs exactly on success; the run ends at the first chunk with a null value, which is not sent, or at the first call that fails, which is the last one sent; each batch fits the limit by key and value sizes, and no admissible partition has fewer |
| Containers.RunMapPipeline | smart/src/smart_client.cpp:1743-1752 | The run stops at the first chunk that lost a value, unsent, or at the first failed call, with exactly the batches before it stored and counts summed modulo 2^32 |
| Routing.AsInt32Congruent | smart/src/routing_table.cpp:50-52 | The route key of a 32 bit partition id is the one congruent number in the signed range |
| Routing.PeerAssigns | smart/src/routing_table.cpp:46-54 | One more peer takes over exactly the shards it announces and leaves the other routes alone |
| Routing.LastPeerWins | smart/src/routing_table.cpp:44-54 | A (role, shard) is routed if and only if some peer lists it, and then to the client of the last such peer |
| Routing.RoutedAfterUpdate | smart/src/routing_table.cpp:12-59 | After an update a (role, shard) is routed if and only if some peer announces it, and then to the live client of the last such peer |
| Routing.RoutesUseClients | smart/src/routing_table.cpp:44-54 | Every route leads to a client of the target map |
| Routing.UpdateSound | smart/src/routing_table.cpp:12-59 | An update keeps clients under their own target, distinct, with routes leading to them |
| Routing.GetOrCreateSound | smart/src/routing_table.cpp:93-101 | So does the exclusive section of a lookup, which ends with a live client for the target |
| Routing.UpdateComposes | smart/src/routing_table.cpp:24-42 | Creating the missing and removing the stale clients keeps every surviving client and removes exactly the others |
| Routing.RoutingTable.UpdateFromCoordinator | smart/src/routing_table.cpp:5-65 | The new targets are exactly those announced, survivors keep their client, new ones get fresh clients, the removed list names each dropped client once, routes are those of the last announcing peer |
| Routing.RoutingTable.CreateMissing | smart/src/routing_table.cpp:24-31 | Afterwards every announced target has a client and no old client was replaced |
| Routing.RoutingTable.RemoveOld | smart/src/routing_table.cpp:33-42 | Exactly the clients of other targets leave the map, and each is listed once |
| Routing.RoutingTable.BuildRoutes | smart/src/routing_table.cpp:44-54 | The routes are those of the announced assignments in order, later over earlier, unknown targets skipped |
| Routing.RoutingTable.GetRoute | smart/src/routing_table.cpp:67-72 | A client is returned exactly when the shard is routed in that role, and it is live: the table's client for its own target |
| Routing.RoutingTable.GetRouteByTarget | smart/src/routing_table.cpp:74-92 | The shared-lock lookup: a client is returned exactly when the target has one, and it is live and has that target |
| Routing.RoutingTable.RecheckOrCreate | smart/src/routing_table.cpp:93-101 | A client that appeared since the shared lookup is returned and nothing changes; otherwise one fresh client is added |
| Routing.RoutingTable.Shutdown | smart/src/routing_table.cpp:104-117 | Both maps are emptied and every client is handed out for shutdown exactly once |
| RoutingRuns.StepInv | smart/src/routing_table.cpp:5-117 | Every atomic step of every thread keeps: sound table, created clients the disjoint union of live and retired, retired clients each shut down or pending in one thread, once |
| RoutingRuns.TableConsistent | smart/src/routing_table.cpp:5-117 | In every reachable state a target has one client, whose target it is, routes lead into the target map, and created clients are the disjoint union of live and retired ones |
| RoutingRuns.RetiredForever | smart/src/routing_table.cpp:33-42 | A retired client is never in the target map or a route again |
| RoutingRuns.ShutDownExactlyOnce | smart/src/routing_table.cpp:61-64 | When no thread is shutting clients down, exactly the retired clients have been shut down, each once |
| RoutingRuns.RecheckAgrees | smart/src/routing_table.cpp:80-102 | A lookup by target ends with a live client for that target, created only if none was there |
| RoutingRuns.LookupAgrees | smart/src/routing_table.cpp:86-92 | The shared section yields the live client for the target, or misses exactly when there is none |
| RoutingRuns.RouteAgrees | smart/src/routing_table.cpp:67-72 | A lookup by shard and role ends with a client that is live at that moment |
| RoutingRuns.LookupResolves | smart/src/routing_table.cpp:80-102 | Whatever other threads do between the two sections, a lookup that has come to a client has one for its target |
| RoutingRuns.EmptyForever | smart/src/routing_table.cpp:104-117 | An empty table with no lookup between its sections stays empty while no update and no lookup is started |
| RoutingRuns.RefillExact | smart/src/routing_table.cpp:80-117 | An empty table is filled again without a new update or lookup if and only if some lookup has missed and has yet to recheck |
| RoutingRuns.RefillAfterShutdown | smart/src/routing_table.cpp:80-117 | A lookup that missed before shutdown leaves a live client after it |
| Streams.StreamCall.Proceed | common/include/utils.hxx:141-180 | One completion takes the call object exactly to the state the transition function gives |
| Streams.StepWellRun | common/include/utils.hxx:141-180 | One completion keeps one outstanding operation, at most one Finish, and frees the call exactly in the finishing state |
| Streams.RunWellRun | common/include/utils.hxx:141-180 | So does every run of completions; the promise is resolved once, together with freeing |
| Streams.CallOutcome | common/include/utils.hxx:141-180 | The status of the last completion decides the outcome and is the error surfaced; on success the value is the in-order fold of the chunks up to the end of the stream or a throwing chunk |
| Streams.ThrownErrorIsLost | common/include/utils.hxx:154-161 | A run in which an accumulator throws and the caller still gets a partial result as a success |
| Streams.ThrownErrorSurfaces | common/include/utils.hxx:152-178 | In every run in which an accumulator threw, the caller gets an error if and only if the server closed with one, and otherwise the fold up to the chunk that threw |
| Streams.FoldIsMerged | smart/src/coordinator_client.cpp:67-86 | Folding chunk after chunk gives the first nonzero shard count and all peers in order |
| Streams.RoutingStreamOutcome | smart/src/coordinator_client.cpp:57-104 | A completely delivered routing stream resolves to the merge of its chunks |
| Streams.ShardsMerged | smart/src/coordinator_client.cpp:70-75 | The merged shard count is that of the first chunk with a nonzero one, and zero exactly when no chunk has one |
| Streams.FuseKeeps | smart/src/coordinator_client.cpp:76-84 | Joining consecutive entries of one peer changes neither the route assignments nor the set of targets |
| Streams.ChunkingIrrelevant | smart/src/coordinator_client.cpp:67-86 | Streams with the same peers after such joining and the same first nonzero shard count allow exactly the same table updates |
| Streams.EmptyStreamMeansNoShards | smart/src/coordinator_client.cpp:93-97 | A stream without chunks is a success with zero shards and no peers |
| Failover.TrimExact | smart/src/smart_client.cpp:294-299 | Exactly the blank ends are removed; the result is empty if and only if all characters are blank |
| Failover.TrimPadded | smart/src/smart_client.cpp:294-299 | Text with non-blank ends comes back from any surrounding blanks |
| Failover.RouteParsed | smart/src/smart_client.cpp:559-566 | Master and backup are read back from any text of the form master, comma, backup, or of a master alone, with blanks around either |
| Failover.RouteTotal | smart/src/smart_client.cpp:559-566 | Every text that is not blank has one of these forms |
| Failover.RedirectFollowed | smart/src/smart_client.cpp:557-595 | A redirect goes to the announced master unless that is the node just tried, keeping the announced backup (else the old fallback) in reserve; otherwise to the reserve; the trailer is read before the message |
| Failover.CommaAt | smart/src/smart_client.cpp:561-566 | The route data is split at its first comma |
| Failover.BlankSet | smart/src/smart_client.cpp:295-297 | The characters trimmed are blank, tab, carriage return and line feed |
| Failover.DecideByReply | smart/src/smart_client.cpp:557-610 | Any reply but a redirect and an unavailable node ends the call; an unavailable node sends it to the fallback exactly if that is another node |
| Failover.AttemptBound | smart/src/smart_client.cpp:532-612 | With R followed redirects there are at most 2R + 1 attempts, one more with an initial fallback |
| Failover.GuardTerminates | smart/src/smart_client.cpp:532-612 | Among n replies of which R are redirects, n at least 2R + 1 (one more with a fallback), the call has ended |
| Failover.GuardCounts | smart/src/smart_client.cpp:557-608 | The redirects counted are exactly the redirect replies the guard went on after |
| Failover.GuardTrace | smart/src/smart_client.cpp:538-611 | Every attempt but the last ended in a redirect or at an unavailable node, the last one's reply is the one surfaced, and consecutive attempts go to different clients |
| Failover.RetryElsewhere | smart/src/smart_client.cpp:568-607 | A retry never goes to the client just tried, for redirect targets resolved to clients of their own target |
| Failover.PingPong | smart/src/smart_client.cpp:557-588 | Any two nodes that name each other as master keep the guard going for any number of rounds |
| Failover.ShardInRange | smart/src/smart_client.cpp:479-486 | For a nonzero 32 bit shard count the shard is a valid index if and only if the count is positive |
| Failover.ShardExact | smart/src/smart_client.cpp:479-486 | The shard is the residue of the hash, as an unsigned word, modulo the shard count, as an unsigned word, read as a signed one, and nothing else is |
| Failover.ShardIsResidue | smart/src/smart_client.cpp:479-486 | For a positive count: s is the shard if and only if 0 <= s < count and the hash is a multiple of the count plus s |
| Failover.InstalledShards | smart/src/smart_client.cpp:479-486 | After the merge of a coordinator stream is installed, the shard computation is defined if and only if some chunk announced a nonzero count, and always in range if and only if the first such count is below 2^31 |
| Failover.FirstAttempt | smart/src/smart_client.cpp:479-522 | Over the residue of the hash, whatever other threads do between the three lookups: a call fails without an attempt exactly when the master is absent at its lookup and the backup at its own; otherwise the first attempt goes to a client live when its route was read, the backup exactly when the mode in force, the coin or a missing master ask for it |
| Failover.StartsAt | smart/src/smart_client.cpp:488-522 | A fallback is held exactly when both lookups found a client and the mode in force names neither role alone; it is the other one |
| Failover.RoleSwapWitness | smart/src/smart_client.cpp:488-493 | A node that changes its role between the two route lookups leaves the call without an endpoint, although before and after the update the shard has one |
| Failover.UnavailableFailsOver | smart/src/smart_client.cpp:495-522 | After an unavailable first node a call goes on if and only if both lookups found a client, two different ones, and the mode is neither master only nor backup only, and then to the other one |
| Failover.OtherRepliesEnd | smart/src/smart_client.cpp:598-610 | A first reply that is a success, or any failure but a redirect and an unavailable node, is surfaced after one attempt |
| Failover.RedirectedOnce | smart/src/smart_client.cpp:557-588 | A call redirected to a node that answers makes two attempts and returns that answer |
| Failover.RedirectThenFailover | smart/src/smart_client.cpp:571-607 | A call redirected to a master that is unavailable goes on to the announced backup or, without one, to the fallback held before |
| Failover.ExecuteSafe | smart/src/smart_client.cpp:467-612 | Every call, whatever happens to the table between its lookups, makes at most 2R + 2 attempts, never the same client twice in a row, surfaces the last reply, and ends once there are enough replies |
| Refresh.StepInv | smart/src/smart_client.cpp:405-465 | Every step of every thread keeps one active refresh at most, the flag equal to there being one, probes in cyclic order from the active index, readiness and table backed by a completed install, and installed data in the table until the index is stored or shutdown empties it |
| Refresh.RefreshSafe | smart/src/smart_client.cpp:405-465 | In every reachable state at most one refresh is active, the index is in range, and ready implies a completed install |
| Refresh.ProbesInOrder | smart/src/smart_client.cpp:417-460 | A refresh asks distinct coordinators in cyclic order from the active one, adopts the first that answers, and has asked all when it gives up |
| Refresh.AdoptsAnswerer | smart/src/smart_client.cpp:417-448 | Each coordinator that fails, and the one whose data is installed and whose index is stored, is the one whose turn it was: the active one, then each time the one behind the last failure |
| Refresh.GivesUpAfterAll | smart/src/smart_client.cpp:455-461 | A refresh gives up only after every coordinator failed |
| Refresh.FlagsFollow | smart/src/smart_client.cpp:720-736 | Only a refresh that has stored its index sets the ready flag, only shutdown clears it, and no refresh is let in once shutdown is requested |
| Refresh.FailedRefreshChangesNothing | smart/src/smart_client.cpp:455-461 | While a refresh has not got an answer nobody installs a table or moves the index |
| Refresh.CyclicDistinct | smart/src/smart_client.cpp:420-421 | Within one round no coordinator is asked twice |
| Refresh.CyclicCovers | smart/src/smart_client.cpp:420-421 | Within one round every coordinator is asked |
| Refresh.QuietForever | smart/src/smart_client.cpp:720-736 | After shutdown, holding no coordinator's data, not ready and with no refresh underway, the client stays so |
| Refresh.UnderwayGetsReady | smart/src/smart_client.cpp:426-453 | Once shutdown has cleared the ready flag, a refresh with a request in flight or an answer can still make the client ready when shutdown is done |
| Refresh.CheckedGetsReady | smart/src/smart_client.cpp:405-414 | So can a thread that has yet to try for the flag while the coordinator client is up, whoever holds the flag |
| Refresh.AskingGetsReady | smart/src/smart_client.cpp:417-427 | So can a refresh with a coordinator left to ask while the coordinator client is up |
| Refresh.HopelessForever | smart/src/smart_client.cpp:720-736 | With no such refresh and not ready, the client never becomes ready again |
| Refresh.ReadyAfterShutdown | smart/src/smart_client.cpp:720-736 | From the moment shutdown has cleared the ready flag, the client can be ready when shutdown is done if and only if it is ready again already or some refresh can still come to an answer |
| Refresh.DataAfterShutdown | smart/src/smart_client.cpp:441-446 | After shutdown the table can hold a coordinator's data again if and only if a request is in flight or its answer is not yet installed |
| Refresh.ReadyBetween | smart/src/smart_client.cpp:729-735 | A run of a fresh client whose shutdown ends with the client ready, its table empty and no thread at work |
| Refresh.Refresher.RefreshRouting | smart/src/smart_client.cpp:405-461 | Undisturbed: either nothing happens, or the first coordinator to answer, in cyclic order, supplies the table and becomes active; if none answers all were asked and nothing changed; the flag is released |
| Hashes.WideIsBytes | common/src/hashes.cxx:14-38 | One CRC instruction of 1 to 8 bytes equals the byte-at-a-time CRC32C (generator of section 12.1 of RFC 3720) of the same bytes |
| Hashes.PolyReflectsGenerator | common/src/hashes.cxx:14-38 | The feedback word is the generator of section 12.1 of RFC 3720 without its top term, bits reversed |
| Hashes.BytesSplit | common/src/hashes.cxx:138-172 | Accumulating a then b equals accumulating their concatenation, for every seed and split |
| Hashes.TakeLoad | common/src/hashes.cxx:14-19 | One load of 1, 2, 4 or 8 bytes advances the reference CRC over exactly these bytes |
| Hashes.AccumulateTail | common/src/hashes.cxx:22-38 | The 4, 2, 1 byte tail covers every remaining length below 8 |
| Hashes.Crc32Accumulate | common/src/hashes.cxx:138-172 | The mixed-width loop computes the byte-at-a-time CRC32C of every buffer from every seed |
| Hashes.Crc32Finalize | common/src/hashes.cxx:175-186 | The finalizer is the mixing function of the low 32 bits and the size |
| Hashes.StrongHash | common/src/hashes.cxx:9-48 | 0 for null, otherwise the finalizer of the reference CRC from seed 0 and the size |
| Hashes.PiecewiseHash | common/src/hashes.cxx:138-186 | Accumulating in two parts and finalizing with the total size is the strong hash of the whole |
| Hashes.MixBijection | common/src/hashes.cxx:175-186 | For each size the finalizer is a bijection on 32 bit values, with an explicit inverse |
| Hashes.MixSeparates | common/src/hashes.cxx:175-186 | Two finalizers agree exactly when CRC and size, combined by exclusive or, agree |
| Hashes.MixSample | common/src/hashes.cxx:178-183 | One value through the stages of the finalizer |
| Hashes.SizeSeparates | common/src/hashes.cxx:40-47 | Keys with the same CRC and different sizes, as 32 bit words, have different hashes |
| Hashes.BitStepInverse | common/src/hashes.cxx:36-38 | The CRC bit step on 32 bit registers has an explicit inverse |
| Hashes.StepsInjective | common/src/hashes.cxx:14-38 | Any number of CRC bit steps separates 32 bit registers |
| Hashes.NoWindowCollision | common/src/hashes.cxx:9-48 | Keys that differ only within four consecutive bytes have different strong hashes; in particular the hash is injective on equal-length keys of up to four bytes |
| Mux.Schoolbook | common/src/hashes.cxx:64-70 | The four half products recombine to the full product |
| Mux.NativeExact | common/src/hashes.cxx:58-61 | The two halves returned are words that make up the exact product |
| Mux.PortableError | common/src/hashes.cxx:57-72 | The fallback's low half is right; its high half is short by exactly 2^32 times the lost carry, which is 0 or 1 |
| Mux.PortableExact | common/src/hashes.cxx:57-72 | The fallback is exact for every multiplicand if and only if the multiplier's halves sum to at most 2^32 |
| Mux.PrimesDiffer | common/src/hashes.cxx:50-51 | Exact for every multiplicand with Prime_1, wrong for 2^64 - 1 with Prime_0 |
| Codec.BuildValueProto | common/src/utils.cxx:42-107 | Type tag, payload arm, size and compression info as the value, the threshold and the compressor's success determine |
| Codec.BuiltValueFields | common/src/utils.cxx:46-93 | A value is compressed exactly when it is longer than the threshold, read as an unsigned number, and the library delivers something; the size field is that of the bytes sent |
| Codec.CopyChunks | common/src/utils.cxx:396-410 | Copying chunk after chunk fills the buffer with exactly the Cord's bytes |
| Codec.ReadBytes | common/src/utils.cxx:356-436 | The flat and the fragmented path give the same bytes; when the arm does not return null its success flag is set |
| Codec.ValueRequestToValue | common/src/utils.cxx:334-450 | The parsed value depends on the joined bytes only, and a BYTES message yields bytes or nothing, never the INT arm |
| Codec.ValueRefused | common/src/utils.cxx:338-353 | Nothing is returned exactly when no type can be inferred, the type is unknown, or compressed bytes do not decompress; a number read from another arm is zero |
| Codec.BytesRead | common/src/utils.cxx:356-436 | Bytes are decompressed exactly when compression is marked as enabled, else taken as they are |
| Codec.BytesRoundTrip | common/src/utils.cxx:47-81 | A built byte message stands for the original bytes, whatever the threshold, compression failure or cut of the Cord; for a prefix of them when its length was cut to 32 bits |
| Codec.ValueRoundTrip | common/src/utils.cxx:42-107 | Parsing a built value returns it bit for bit if and only if it was not cut to 32 bits; if it was, a prefix comes back |
| Codec.ParsedEqualsBuilt | common/include/types.hxx:78-91 | With the client's own equality the one further exception is a NaN |
| Codec.SameIsEquality | common/include/types.hxx:78-91 | Equality of values is the usual one, but for doubles no NaN equals anything and the two zeros are equal |
| Codec.OmittedTypeIsInferred | common/src/utils.cxx:336-353 | Leaving the type out of a built value changes nothing for the reader |
| Codec.BuiltValuesDiffer | common/src/utils.cxx:42-107 | Different values, none cut to 32 bits, never make the same message, whatever the thresholds and the cut of the Cord |
| Codec.BuildKeyProto | common/src/utils.cxx:11-40 | Payload, size, compression info and hint as key, threshold and given or computed hint determine |
| Codec.BuiltKeyFields | common/src/utils.cxx:16-38 | A key is compressed exactly when it is longer than the threshold, read as an unsigned number; size field, raw size and client id are those of the call |
| Codec.KeyRequestToKey | common/src/utils.cxx:148-188 | The parsed key; the caller's hint is written exactly when a key is returned, with sentinels for missing hashes |
| Codec.KeyRefused | common/src/utils.cxx:149-187 | A key is refused exactly when it has no payload, a wrong size field, or does not decompress; missing hashes are read as sentinels |
| Codec.KeyRoundTrip | common/src/utils.cxx:11-40 | Every key comes back with the hint it was given, else its own hashes, else (empty key) the sentinels |
| Codec.BuiltKeysDiffer | common/src/utils.cxx:11-40 | Different keys never make messages with the same content, whatever the thresholds |

## Left out

- gRPC channels, stubs, completion queue threads, deadlines, sleeps and logging; what remains is that each issued operation completes once with an ok flag.
- The compression library itself; the round trips assume that decompression inverts compression, and for keys that compression succeeds, since the builder has no fallback.
- Exact serialized sizes: chunk bounds are on estimated sizes.
- Chunks.PartitionValueChunks: bounds the smart client's estimates, not the bytes of the request, because the standalone senders use their own default compression threshold.
- The server: its contract on blocks, pivots, positions and failed calls is assumed as described above.
- The forwarding methods of both clients (time to live, locks, atomics, streaming reads) and the deep-copy helpers.
- Chunked creation of maps and of ordered containers: the same packers and pipelines as the forms modelled.
- Null elements in list data, which the source dereferences.
- Ownership and lifetime of raw pointers, and detached threads that outlive the client.
- Round trip of OrderedValue: its builders set no value type and its parser does not infer one.
- Time to live and lock fields of value messages, which the parser does not read.
- The loop of week_hash and the quality of its distribution; the weak hash is a parameter of the key codec. Its multiplication is modelled.
- Random numbers and the round-robin counter: the coin for load balancing and the hash of a missing hint are parameters.
- Failover.ExecuteSafe: the refresh an UNAVAILABLE reply triggers is a step of `Refresh.dfy`, not an effect of the guard. The three lookups of a call read three tables, and the answers to its redirect lookups are parameters that have the target asked for (`RoutingRuns.LookupResolves`), so that what other threads do to the table in between is covered; the shard count read must not be zero.
- Refresh.Refresher.RefreshRouting: one refresh with nobody else running; several at once, and shutdown, are the state machine beside it.
- Waiting for the first routing table, and its timeout: `Failover.Execute` starts when the client is ready.
- The copy of peer entries into protobuf objects between the stream result and the table update.
- 32 bit overflow of the coordinator index, for more than 2^31 coordinators.
