# Stric mesh model

Stric is a QUIC-based peer-to-peer mesh. Every node keeps a replica of the network's topology, floods topology and
subscription updates to its peers, synchronises shared session state, and publishes messages along a multicast tree
that the source computes and puts in the envelope's header. This project models those parts in Dafny and proves what
they promise, for every graph, every schedule and every reachable state. `dafny verify dfyconfig.toml` checks all of it.

| files | part of the system |
|---|---|
| `Walks`, `Trees` | walks, cheapest walks, bridges, branches and rings of a graph |
| `Networks`, `Wrappers` | messages and their fan-out to a set of peers; option and result types |
| `Meshes`, `DiGraphs`, `GlobalGraph` | the topology replica: a name-keyed reference and the index-based graph that refines it |
| `ShortestPaths`, `Renaming`, `Forwarding`, `Penalties` | the shortest-path search, its move from indices to names, the forwarding table, and what its walks minimise |
| `Multicast` | publishing and stateless relaying of one envelope |
| `Gossip` | epoch-guarded flooding and last-write-wins session sync |
| `Merge`, `Traffic` | session sync with a merge function: what it converges to, and when it goes quiet |
| `FlowNode` | one node's control-loop branches, tied to the step relations above |
| `KeepAlive` | the keep-alive pool: manager, workers, ownership of streams |
| `Discovery`, `Backoff` | the XOR-metric routing table and the reconnection backoff |

How the pieces connect. `GlobalGraph` and `FlowNode` are classes whose methods follow the code's branches and loops.
`GlobalGraph` carries a ghost `mesh`, the name-keyed graph it stands for, and each method says how that mesh changes.
`FlowNode`'s handlers say that one control-loop event is one `Reacts` step of `Gossip` or `Merge`, one `Updates` of
`Merge`, or one lookup of `Multicast.Targets`. The network-wide theorems then quantify over all runs made of such steps:
any delivery order and any peer graph. A message in flight is a `net` element and is delivered at most once; a second
copy of an update is a second message.

Main results:

- **Routing.** `ComputeForwardingTable` reports an overflow exactly when some cheapest walk extended by a link leaves
  the 32-bit range. Otherwise its edges are exactly the union of one cheapest walk per subscriber that is reachable
  below the `u32::MAX` sentinel, and these walks form a tree, even with zero-cost links. Each of them has the least sum
  of hop costs plus 10000 per aggregator entered. Composed with the relay rule,
  in every interleaving each node gets at most one copy, and exactly the nodes whose table route is fully connected
  get one. Every run goes on to one that leaves nothing in flight.
- **Flooding.** In every quiet state each node other than the origin holds an epoch at least as large as any that the
  origin broadcast. No schedule exceeds an explicit bound, and every run goes on, by deliveries alone, to a quiet state
  within it.
- **Sessions.** Last-write-wins agrees on the largest stamp. With clocks that are not behind, all nodes of a quiet
  network store the same entry if and only if only one of the entries written has the largest stamp; for a single
  write, agreement holds if and only if the writer's clock was not behind the stored timestamp. Merge mode converges to
  the least upper bound of all writes. After at least one write it is quiet if and only if the peer graph is acyclic and
  exactly n-1 deliveries per write have happened, for n nodes; on an acyclic graph every run goes on to that point, and
  on a cyclic one deliveries go on for as long as one likes.
- **Keep-alive.** Each stream is in as many places as it was submitted; no worker's load exceeds the limit by more than
  the channel capacity. Some run drops a live stream if and only if the limit is at least four, and some run comes to a
  standstill of manager and worker waiting for each other under the same condition. Without a limit there is never more
  than one worker.

Where the code and its documents differ, the model follows the code:

- The protocol document adds a round-trip factor to link costs (`rfcs/2026-0008-stric-flow-protocol-specification.md:118-119`);
  the code uses `hop_cost` and the aggregator penalty only.
- The document evicts from a full bucket after a failed ping
  (`rfcs/2026-0008-stric-flow-protocol-specification.md:110-113`); the code drops the new node, and an update of a
  listed node keeps its old address.
- The document calls the epochs monotonic (`rfcs/2026-0008-stric-flow-protocol-specification.md:17-18`). The code sends
  epoch 1 with every connection snapshot and can use a subscription epoch twice, so the flooding theorems speak of
  stored epochs, and of content only under the hypothesis that the latest epoch was used once.
- The document applies an update only if its epoch exceeds the stored one; the code also accepts any epoch from an
  origin it has not heard of, including 0.
- A local session write whose merge fails still advances the version and the timestamp.
- The backoff promises the uncapped power up to the maximum; the saturating power makes that false for some settings,
  and `DelayIsExact` gives the exact condition.

## Model

| member | source | states |
|---|---|---|
| GlobalGraphs.GlobalGraph.constructor | stric-flow/src/routing.rs:49-55 | a new graph stands for the empty mesh |
| GlobalGraphs.GlobalGraph.AddNode | stric-flow/src/routing.rs:62-69 | refines adding a name and replacing its metadata wholesale; the index map stays the exact inverse of the node names and links stay symmetric |
| GlobalGraphs.GlobalGraph.RemoveNode | stric-flow/src/routing.rs:78-89 | refines deleting the name, its metadata and every link at it, although the last index moves into the freed slot; an unknown name changes nothing |
| GlobalGraphs.GlobalGraph.AddLink | stric-flow/src/routing.rs:98-114 | refines setting both directions to one weight and creating missing endpoints, with no parallel edges |
| GlobalGraphs.GlobalGraph.RemoveLink | stric-flow/src/routing.rs:122-131 | refines deleting both directions, and nothing if an end is unknown |
| GlobalGraphs.GlobalGraph.ApplyUpdate | stric-flow/src/routing.rs:138-151 | refines the reference update: nodes added, nodes removed, links added, links removed, in that order |
| GlobalGraphs.GlobalGraph.GetDescriptors | stric-flow/src/routing.rs:252-266 | the two lists hold exactly the metadata and the weighted links, in any order |
| GlobalGraphs.GlobalGraph.HasLink | stric-flow/src/node.rs:834-839 | true exactly for the links of the mesh |
| DiGraphs.RemoveNodeEdged | stric-flow/src/routing.rs:78-89 | swap-removal of a node index keeps every other link between the same names with the same weight, each in one slot |
| DiGraphs.UpdateEdgeEdged | stric-flow/src/routing.rs:98-114 | updating an edge by index sets exactly that named link |
| DiGraphs.RemoveEdgeEdged | stric-flow/src/routing.rs:122-131 | removing an edge, which moves the last one into its slot, deletes exactly that named link |
| DiGraphs.SwapRemoveNames | stric-flow/src/routing.rs:78-89 | after swap-removal the names are still distinct and exactly the removed one is missing |
| Meshes.RemoveNodeKeeps | stric-flow/src/routing.rs:78-89 | removal leaves no link at the node, keeps every other link and all other metadata, and keeps the mesh symmetric; an unknown name is a no-op |
| Meshes.RemoveLinkKeeps | stric-flow/src/routing.rs:122-131 | removal keeps the mesh symmetric and deletes exactly the two directions |
| Meshes.UpdateLeaves | stric-flow/src/routing.rs:138-151 | which nodes, metadata and links an update leaves, also when it names one twice: removed nodes lose their metadata even if added, but stay as ends of added links; removed links are gone even if added |
| Meshes.LastDescriptorCounts | stric-flow/src/routing.rs:62-69 | of several descriptors of one node in an update the last one counts |
| Meshes.LastWeightCounts | stric-flow/src/routing.rs:98-114 | of several descriptors of one link, in either direction, the last one counts for both directions |
| Meshes.SnapshotMerges | stric-flow/src/routing.rs:138-151 | applying any graph's snapshot to any other graph overlays its links and metadata and adds their nodes |
| Meshes.SnapshotRebuilds | stric-flow/src/routing.rs:252-266 | a snapshot applied to the empty graph, in any emission order, rebuilds links and metadata; exactly the nodes with neither are lost |
| Meshes.SnapshotIdempotent | stric-flow/src/routing.rs:252-266 | a snapshot applied to its own graph changes nothing |
| ShortestPaths.Pop | stric-flow/src/routing.rs:35-39 | the heap yields an entry of least cost, ties in any order, and removes one copy of it |
| ShortestPaths.PopSettles | stric-flow/src/routing.rs:182-186 | an entry that is not stale belongs to a node never expanded before, so each node is expanded at most once |
| ShortestPaths.Frontier | stric-flow/src/routing.rs:182-210 | any walk is at least as costly as the frontier's least distance, unless it ends at a settled node no farther than the walk's cost |
| ShortestPaths.PopIsShortest | stric-flow/src/routing.rs:182-186 | the popped node's recorded walk is cheapest among all walks |
| ShortestPaths.ImproveRooted | stric-flow/src/routing.rs:203-208 | an improvement never touches a settled node, and predecessors stay a tree rooted at the source even with zero-cost links |
| ShortestPaths.SearchIsExact | stric-flow/src/routing.rs:175-210 | when the heap is empty, the distances are exactly the minima over all walks, for exactly the nodes some walk below the sentinel reaches |
| GlobalGraphs.GlobalGraph.EdgeCost | stric-flow/src/routing.rs:192-201 | the edge's hop cost, plus 10000 exactly when its target has metadata with role 1 |
| Penalties.LinkCost | stric-flow/src/routing.rs:192-201 | the cost of a named link, in the same terms |
| Penalties.WalkCost | stric-flow/src/routing.rs:192-203 | a walk costs the sum of its hop costs and 10000 for each aggregator it enters |
| Penalties.PenaltyRaises | stric-flow/src/routing.rs:195-200 | making a node an aggregator raises exactly the links into it, each by 10000 |
| Penalties.TableMinimises | stric-flow/src/routing.rs:161-247 | every table walk from the source has the least sum of hop costs and penalties of all walks between its ends |
| Penalties.PlainTableMinimises | stric-flow/src/routing.rs:161-247 | without aggregators every table walk has the least sum of hop costs |
| GlobalGraphs.GlobalGraph.Scan | stric-flow/src/routing.rs:188-209 | the edge loop keeps the tree and heap invariants and leaves the node's links relaxed, or meets an addition beyond 32 bits |
| GlobalGraphs.GlobalGraph.Search | stric-flow/src/routing.rs:175-210 | the main loop ends, with distances and predecessors of a finished search or with a witness of an overflow |
| GlobalGraphs.GlobalGraph.WalkBack | stric-flow/src/routing.rs:214-234 | the walk-back ends and adds exactly the steps of the recorded walk to the table |
| GlobalGraphs.GlobalGraph.BuildTree | stric-flow/src/routing.rs:212-234 | the table's edges are exactly the steps of the subscribers' walks, with no empty entry |
| GlobalGraphs.GlobalGraph.ComputeForwardingTable | stric-flow/src/routing.rs:161-247 | empty for no subscribers or an unknown source; overflow if and only if a cheapest walk extended by a link leaves 32 bits; otherwise a forwarding table of cheapest walks |
| GlobalGraphs.PenaltyOverflows | stric-flow/src/routing.rs:192-203 | the overflow does occur: one link into an aggregator whose hop cost is within 10000 of `u32::MAX` is enough |
| Forwarding.SearchFits | stric-flow/src/routing.rs:183-204 | a search that completes met no overflowing addition anywhere in the graph |
| Forwarding.ArithmeticBound | stric-flow/src/routing.rs:183-204 | if node count times the largest link cost is below `u32::MAX`, no addition overflows and every reachable node is reached below the sentinel |
| Forwarding.RoutePrefix | stric-flow/src/routing.rs:212-234 | every prefix of a route is the route of its last node |
| Forwarding.SenderIsUnique | stric-flow/src/routing.rs:236-246 | a node has at most one parent in the table, the source has none, and each table edge is a link |
| Forwarding.KeysAreFed | stric-flow/src/routing.rs:236-246 | every key other than the source is itself some key's target |
| Forwarding.LeavesSubscribe | rfcs/2026-0008-stric-flow-protocol-specification.md:122-124 | every leaf of the table is a subscriber |
| Forwarding.TableWalkIsRoute | stric-flow/src/routing.rs:212-246 | every walk in the table from the source is the unique route to its end and a cheapest walk of the graph |
| Forwarding.SubscriberHasTableWalk | stric-flow/src/routing.rs:212-246 | each subscriber reachable below the sentinel has a table walk from the source |
| Renaming.NamesOfWalk | stric-flow/src/routing.rs:188-201 | a walk over indices is a walk over names of the same cost |
| Renaming.IndicesOfWalk | stric-flow/src/routing.rs:188-201 | each walk over names comes from one over indices, so index distances are name distances |
| Renaming.OverflowNames | stric-flow/src/routing.rs:192-204 | an overflow met on indices is one of the named graph |
| Renaming.OverflowIndices | stric-flow/src/routing.rs:192-204 | an overflow of the named graph is one on indices |
| Renaming.SearchYieldsRoutes | stric-flow/src/routing.rs:212-234 | a finished index search yields, by name, one cheapest route per node reachable below the sentinel, forming a tree |
| FlowNodes.FlowNode.Subscribers | stric-flow/src/node.rs:585-592 | exactly the nodes with metadata that list `sub:` followed by some pattern that the topic matches |
| FlowNodes.FlowNode.Publish | stric-flow/src/node.rs:622-678 | computes the table for exactly the matching subscribers, overflows only when that computation does, and sends to exactly the connected first hops |
| FlowNodes.FlowNode.NextHops | stric-flow/src/node.rs:464-488 | a relay sends to exactly the connected targets listed under its own id |
| Multicast.RelayCopies | stric-flow/src/node.rs:464-488 | a relay step feeds only nodes that nobody fed before |
| Multicast.AtMostOnce | rfcs/2026-0008-stric-flow-protocol-specification.md:142-156 | in every run, at every point, each node has been sent at most one copy and the source none |
| Multicast.RunsAreShort | stric-flow/src/node.rs:464-488 | no run has more relay steps than there are other nodes with a route |
| Multicast.NotStuck | stric-flow/src/node.rs:464-488 | any copy in flight can be relayed |
| Multicast.GoesQuiet | stric-flow/src/node.rs:464-488 | every run goes on to one that leaves nothing in flight, within the same bound |
| Multicast.DeliveredExactly | stric-flow/src/node.rs:464-488 | when nothing is in flight a node has received exactly one copy if every hop of its table route is connected, and none otherwise |
| Multicast.EverySubscriberOnce | rfcs/2026-0005-stric-flow-spanning-tree-routing.md:17-30 | with all table hops connected, each subscriber other than the source reachable below the sentinel receives exactly one copy |
| FlowNodes.FlowNode.constructor | stric-flow/src/node.rs:158-177 | a new node has an empty graph, no epochs, no sessions, no merge functions and no peers |
| FlowNodes.FlowNode.Recipients | stric-flow/src/node.rs:683-687 | the gossip loop reaches every peer that is not skipped, each once |
| FlowNodes.FlowNode.OnTopologyUpdate | stric-flow/src/node.rs:750-773 | one flooding step: an epoch newer than the stored one of its origin, or a first one, is stored, applied to the graph and sent to all peers but sender and origin; anything else changes nothing; other origins are untouched |
| FlowNodes.FlowNode.Descriptor | stric-flow/src/node.rs:780-796 | a flow-role descriptor whose capabilities are exactly the patterns of the Subscribe entries |
| FlowNodes.FlowNode.OnSubscriptionUpdate | stric-flow/src/node.rs:774-808 | the same flooding step for subscriptions; an accepted one replaces the node's metadata |
| FlowNodes.FlowNode.SubscriptionRoundTrip | stric-flow/src/node.rs:774-808 | after an accepted update its node is a subscriber of a topic if and only if some entry with action 0 has a matching pattern; other nodes keep their metadata |
| FlowNodes.FlowNode.OnPong | stric-flow/src/node.rs:824-876 | the link to the sender gets hop cost 1 and the round-trip time, zero if the clock went back; exactly when it was new the own epoch goes up by one and a full snapshot goes to every peer; what is stored of other origins is untouched |
| FlowNodes.Accepted | stric-flow/src/node.rs:755-758 | the control loop's guard is the protocol's guard, and storing touches one origin only |
| Gossip.AcceptedOnce | rfcs/2026-0008-stric-flow-protocol-specification.md:85-88 | of two deliveries of one origin's epoch to one node, anywhere in a run, the later is not accepted |
| Gossip.StampsAreOrdered | stric-flow/src/node.rs:997-998 | stamps are in one strict total order, by timestamp and then by version |
| Gossip.SpreadKept | stric-flow/src/node.rs:755-772 | every step keeps: what a node stores, each peer stores at least, or is about to receive |
| Gossip.FloodCovers | stric-flow/src/node.rs:755-772 | in every quiet state on a connected peer graph each node but the origin stores an epoch at least as large as any the origin broadcast, although forwarders skip sender and origin |
| Gossip.FloodDelivers | stric-flow/src/node.rs:776-807 | if the origin's largest epoch was used for one content and broadcast, then in every quiet state each other node has accepted exactly that content last |
| Gossip.FuelBurns | stric-flow/src/node.rs:755-772 | each delivery or write lowers the measure of stamps still to come and messages in flight; an announcement adds at most the node count |
| Gossip.RunsAreBounded | stric-flow/src/node.rs:755-772 | no schedule, cycles included, has more than (n+1)·(n·s+a) steps for n nodes, s stamps and a announcements |
| Gossip.NotStuck | stric-flow/src/node.rs:750-773 | any message in flight can be delivered, so only quiet states have no delivery |
| Gossip.GoesQuiet | stric-flow/src/node.rs:755-772 | every run goes on, by deliveries alone, to a quiet state within that bound |
| FlowNodes.FlowNode.OnStateSync | stric-flow/src/node.rs:973-1034 | without a merge function one last-write-wins step; with one the merged data, a version one above the larger of the two and the later of the two timestamps, sent to all peers but the sender, which is one step of the merging network when the merge succeeds; a failed merge or an unknown session changes and sends nothing |
| FlowNodes.FlowNode.SyncSessionState | stric-flow/src/node.rs:1199-1239 | the write's stamp is the next version at the local clock; success sends the raw data with it to every peer, which in merge mode is one update of the merging network; a failed merge keeps the data but not the stamp and sends nothing |
| Gossip.WriteIsNewer | stric-flow/src/node.rs:1201-1205 | a local write's stamp is newer than the stored one if and only if the clock is not behind it |
| Gossip.StoredIsGenuine | stric-flow/src/node.rs:996-1012 | in every run all that is stored or in flight was initial, written or announced |
| Gossip.LastWriteWins | rfcs/2026-0008-stric-flow-protocol-specification.md:193-196 | in every quiet state on a connected graph all nodes hold an entry with the largest stamp written, and the same entry when only one has that stamp |
| Gossip.ClockBehindDiverges | stric-flow/src/node.rs:1201-1205 | a write made with a clock behind the stored timestamp stays at its writer in every schedule |
| Gossip.AgreesIffClockNotBehind | stric-flow/src/node.rs:1199-1235 | after one write and any deliveries to quiet, all nodes hold it if and only if the writer's clock was not behind |
| Gossip.LatestIsKept | stric-flow/src/node.rs:996-998 | an entry that nothing written is newer than is still stored at some node at the end of every run, quiet or not |
| Gossip.AgreeIffOneLatest | stric-flow/src/node.rs:996-1033 | in every quiet state on a connected graph all nodes store the same entry if and only if only one of the entries written has the largest stamp |
| Gossip.TieDiverges | stric-flow/src/node.rs:997-998 | ties do occur: for any stamp and any two different data a run to quiet in which two nodes keep different data under that stamp |
| Merge.SpreadKept | stric-flow/src/node.rs:1013-1033 | every merge step keeps: what caps a node and its inbound messages caps its peers |
| Merge.RunStaysBelow | stric-flow/src/node.rs:979-995 | nothing ever exceeds the join of the initial data and the writes |
| Merge.WritesStay | stric-flow/src/node.rs:1199-1235 | no write is ever lost: some node is always above it |
| Merge.Converges | rfcs/2026-0008-stric-flow-protocol-specification.md:188-192 | with an associative, commutative, idempotent merge every quiet state has all nodes equal, holding the least upper bound of initial data and writes |
| Traffic.StepLoad | stric-flow/src/node.rs:1013-1033 | on a tree each delivery lowers the load by exactly one and each write adds exactly n-1 |
| Merge.NotStuck | stric-flow/src/node.rs:973-1034 | any message in flight to a node with the session can be delivered |
| Traffic.TreesAreFrugal | stric-flow/src/node.rs:979-1033 | on a tree of n nodes there are at most n-1 deliveries per write, and the network is quiet exactly when that many happened |
| Traffic.TreesGoQuiet | stric-flow/src/node.rs:979-1033 | on a tree of n nodes every run goes on, by deliveries alone, to a quiet state, after exactly n-1 deliveries per write |
| Traffic.CyclesNeverGoQuiet | stric-flow/src/node.rs:989-1033 | on a connected peer graph with a cycle, once anything is written no schedule ever goes quiet |
| Traffic.CyclesGoOn | stric-flow/src/node.rs:989-1033 | on such a graph every run with a write goes on with any number of further deliveries |
| Traffic.QuietOnlyOnTrees | stric-flow/src/node.rs:979-1033 | after a write a run is quiet if and only if the peer graph is acyclic and (n-1) deliveries per write have happened |
| KeepAlive.KeepAliveWorker.constructor | stric-core/src/keep_alive.rs:174-185 | a new worker holds one stream and both counts say so |
| KeepAlive.KeepAliveWorker.UpdateCounts | stric-core/src/keep_alive.rs:219-222 | both counts become the length of the list |
| KeepAlive.KeepAliveWorker.Receive | stric-core/src/keep_alive.rs:232-236 | the stream is appended and the shared count follows |
| KeepAlive.KeepAliveWorker.Sweep | stric-core/src/keep_alive.rs:244-260 | the in-place index loop keeps, in order, exactly the streams whose ping did not fail |
| KeepAlive.KeepAliveWorker.Tick | stric-core/src/keep_alive.rs:243-276 | one tick of the pool's step relation: the survivors are handed off if and only if there is at least one and fewer than half the limit; the shared count equals the list's length afterwards although it is stored only on change |
| KeepAlive.AliveIs | stric-core/src/keep_alive.rs:247-260 | a ping round removes every stream whose ping failed and no other |
| KeepAlive.AliveInOrder | stric-core/src/keep_alive.rs:247-260 | a ping round keeps the order of the survivors |
| KeepAlive.FirstWithRoom | stric-core/src/keep_alive.rs:148-151 | the position of the first listed worker with room; none only if no listed worker has room |
| KeepAlive.PlacesWhere | stric-core/src/keep_alive.rs:146-192 | a stream starts a new worker if and only if none is listed, or there is a limit and every listed worker holds that many; otherwise it goes to the first listed worker that holds fewer, or to the first one if there is no limit |
| KeepAlive.UnlimitedPoolsUseOneWorker | stric-core/src/keep_alive.rs:148-151 | with limit 0 no run ever has more than one worker, and that worker never leaves |
| KeepAlive.TakesNext | stric-core/src/keep_alive.rs:117-141 | commands are taken in order, and a worker reported underloaded is off the list before its streams are placed |
| KeepAlive.DropInOrder | stric-core/src/keep_alive.rs:199 | taking a worker off the list keeps the order of the others |
| KeepAlive.StepBalances | stric-core/src/keep_alive.rs:117-204 | each step but a submission only moves streams; a send to a gone worker never loses one |
| KeepAlive.LedgerBalances | stric-core/src/keep_alive.rs:117-286 | in every run each stream occurs, over inbox, manager, worker lists, queues, hand-offs, closed and dropped, exactly as often as it was submitted |
| KeepAlive.LoadIsBounded | stric-core/src/keep_alive.rs:146-192 | in every run no worker's held, handed-off, queued and incoming streams exceed the limit by more than the channel's 100 slots |
| KeepAlive.IdsAreNotReused | stric-core/src/keep_alive.rs:162-191 | the id counter never gives out an id twice: a worker that is gone stays as it is under its id |
| KeepAlive.SmallLimitsNeverDrop | stric-core/src/keep_alive.rs:266-276 | with a limit below four no run drops a stream |
| KeepAlive.LargeLimitsCanDrop | stric-core/src/keep_alive.rs:266-276 | from a limit of four on, a state in which a queued live stream was dropped is reachable |
| KeepAlive.DropsIffLimitIsFour | stric-core/src/keep_alive.rs:266-276 | a state with a dropped stream is reachable if and only if the limit is at least four |
| KeepAlive.DeadlockIsCircular | stric-core/src/keep_alive.rs:153-159 | a state with no possible step is the circular wait: the manager sends to a full queue of a worker that waits for room in the manager's full inbox |
| KeepAlive.DeadlocksIffLimitIsFour | stric-core/src/keep_alive.rs:266-276 | a state with no possible step is reachable if and only if the limit is at least four, and each such state is that circular wait |
| XorMetric.XorDistance | stric-flow/src/discovery.rs:154-160 | the loop computes the bytewise exclusive or |
| XorMetric.LeadingZeros | stric-flow/src/discovery.rs:162-173 | the loop with its early exit computes the number of leading zero bits |
| XorMetric.LessIsNumeric | stric-flow/src/discovery.rs:136-137 | comparing byte arrays lexicographically is comparing the big-endian numbers |
| Discovery.ZeroIsSame | stric-flow/src/discovery.rs:154-160 | only equal hashes are at distance zero |
| XorMetric.Triangle | rfcs/2026-0008-stric-flow-protocol-specification.md:106-107 | the distance obeys the triangle inequality |
| Discovery.LowerBucketIsFarther | stric-flow/src/discovery.rs:75-80 | a lower bucket index means strictly farther from the local node |
| Discovery.BucketMatesAreClose | stric-flow/src/discovery.rs:75-80 | two nodes of one bucket are strictly closer to each other than either is to the local node |
| Discovery.UpdatedOk | stric-flow/src/discovery.rs:82-97 | an accepted update keeps a bucket duplicate-free, within 20 nodes and ordered by last accepted update |
| Discovery.UpdatedIs | stric-flow/src/discovery.rs:82-97 | a listed node goes to the end as it is and the others close up; a new one comes last with its address while fewer than 20 are listed; else nothing changes |
| Discovery.RetainOk | stric-flow/src/discovery.rs:105-113 | a removal keeps the bucket's invariants and deletes exactly that id |
| Discovery.RetainCloses | stric-flow/src/discovery.rs:111-112 | a removal closes the gap and keeps the order of the others |
| Discovery.RoutingTable.constructor | stric-flow/src/discovery.rs:47-58 | 256 empty buckets |
| Discovery.RoutingTable.IndexOf | stric-flow/src/discovery.rs:75-80 | the index computed by the two loops, clamped to 255, is the node's bucket |
| Discovery.RoutingTable.IdsAreUnique | stric-flow/src/discovery.rs:70-98 | in every reachable table no id occurs twice anywhere and the local id never occurs |
| Discovery.RoutingTable.Update | stric-flow/src/discovery.rs:70-98 | keeps all table invariants and changes only the id's bucket: moved to the end with its old address, appended if there is room, else dropped; the local id is ignored |
| Discovery.RoutingTable.Remove | stric-flow/src/discovery.rs:105-113 | keeps all table invariants and deletes exactly that id |
| Discovery.RoutingTable.FindClosestNodes | stric-flow/src/discovery.rs:124-140 | min(count, total) nodes in the order of the exclusive or of their hash with the target's, no omitted node strictly closer than a returned one, and a listed node with the target's hash first |
| Backoff.DelayIsExact | stric-flow/src/reconciliation.rs:44-49 | the delay before jitter is min(base·2^(n-1), max) if and only if n ≤ 32, base·(2^32-1) ≥ max, or base is zero |
| Backoff.DelayGrows | stric-flow/src/reconciliation.rs:44-49 | the delay before jitter never decreases between resets |
| Backoff.ExponentialBackoff.constructor | stric-flow/src/reconciliation.rs:28-34 | no attempts yet |
| Backoff.ExponentialBackoff.NextBackoff | stric-flow/src/reconciliation.rs:41-59 | one more attempt; wherever the delay is exact, the result is min(base·2^(n-1), max) nanoseconds and the jitter's share of it, or one second if that is less; in all cases the jittered delay, within a tenth of it unless raised to one second |
| Backoff.ExponentialBackoff.Reset | stric-flow/src/reconciliation.rs:62-64 | the sequence starts again |

## Left out

- QUIC, TLS, sockets and stream wrappers: channels are reliable queues and a connection is an edge of a fixed set.
- Everything in `stric-tower`, the frame codec, the message registry, handlers and local delivery: thin wrappers or opaque closures.
- Topic matching is an arbitrary predicate on patterns; it would only add easy members.
- Backpressure: the token bucket is inside a library, and it only delays a send.
- Session create, join, leave and close gossip, and eviction by age: no version guard relates them, and eviction is a plain filter.
- Peers that connect or disconnect during a run: the network theorems take a fixed peer graph; a connection snapshot is an announcement to one peer.
- Clocks, randomness and SHA-256 are parameters: timestamps, jitter and an arbitrary function to 32 bytes.
- The graph library's internals: a node list and an edge list with swap-removal stand for them.
- 64-bit overflow of epochs, versions and round-trip times is not modelled: they are natural numbers.
- Real-valued seconds stand for floating point in the jittered delay.
- GlobalGraphs.GlobalGraph.ComputeForwardingTable: the overflow outcome is the panic of a build with checked arithmetic; the wrap-around of a build without checks is not modelled.
- GlobalGraphs.GlobalGraph.Valid does not say that stored subscriptions match the newest subscription epoch, since a topology update overwrites metadata wholesale.
- FlowNodes.FlowNode.OnStateSync: the last-write-wins step relation is stated for a sync whose sender field is the peer it came from, which is what both sending sites of the code produce; for any other sender field the new state and the recipients are still given.
- FlowNodes.FlowNode.OnTopologyUpdate: the record of when each node was last heard of, used by eviction, is not modelled.
- Gossip.FloodDelivers: content is claimed only when the largest epoch was used once, because the code can reuse epochs.
- KeepAlive: the interleaving of manager and workers is a step relation on values, because each wait on a full channel is a point where others run; the worker's own fields are a class, the manager's are not. The manager reads all counts in one step, and a worker's tick, with the pings it awaits, is one step. The commands that the code never sends (drain, shutdown, worker dropped) and shutdown of the pool are absent.
- Discovery.RoutingTable.FindClosestNodes: the order among equally distant nodes is not stated; the sort is an insertion loop.
- Backoff.ExponentialBackoff.NextBackoff: requires fewer than 2^32-1 earlier attempts, where the counter itself would overflow.
