# DTLSR verification

A Dafny model of the routing daemon DTLSR (Delay-Tolerant Link-State Routing) and of its plain variant LSR, with proofs about
route computation, the link-state database and its flooding, link history and metrics, and the installed routes.

    dafny verify dfyconfig.toml

| file | models |
|---|---|
| `Network.dfy` | records, links, table entries, the content equality of records |
| `MinHeap.dfy` | the pointer heap whose keys live in the nodes it points to |
| `ShortestPaths.dfy` | walks, the labels of a search, optimality, the sentinel |
| `Routes.dfy` | next hops, destination addresses and hop metrics read off the labels |
| `Pathfind.dfy` | Dijkstra's algorithm and the table emission, over node objects shared with the heap |
| `Agreement.dfy` | routers that compute over databases which agree in content |
| `Forwarding.dfy` | following the routers' tables hop by hop; DTLSR against LSR |
| `LinkHistory.dfy` | the circular buffer of toggle times, uptime averages, the link metric |
| `Database.dfy` | merging records and whole graphs, order of merges, closure |
| `Protocol.dfy` | what a router does with a packet, as a function |
| `Daemon.dfy` | the local node and the event loop, as objects that implement those functions |
| `Flooding.dfy` | networks of routers with loss and restarts: invariant of all runs, termination |
| `Overtaking.dfy` | a run in which one announcement overtakes another |
| `Turns.dfy` | a turn of the event loop as steps of the network |
| `Coverage.dfy` | which routers a lossless flood reaches |
| `RouteControl.dfy` | the mark-and-sweep mirror of the kernel's routes |
| `FullMirror.dfy` | computed routes that overflow the mirror |
| `EndToEnd.dfy` | what all this gives in every reachable state |

## Reading the model

- `double` is `real`. The exponential is a positive, strictly increasing function `E`, so that `integral_between(l, r, now)` is
  `(E(r) - E(l)) / E(now)`; the power is the default 4. `unsigned long long` and `int` values are unbounded except where the code
  wraps: `size_t` indices in `link_hist.c` and the `short` hop metric are reduced as the code reduces them.
- The parallel arrays of `struct node` are one sequence of links, `n_neighbours` long; the unused columns are not modelled.
  `memcpy` of a record is assignment of a value. `MAX_NODE_NUM` is the length of the arrays, with 12 as an instance.
- The node table of the search is a fixed sequence of distinct objects and the heap an array of references to them, so a key
  changed through the table changes under the heap.
- The flag `dt` is the `DTLSR` build; `false` is LSR.
- Router i has id i + 1. A datagram names the router that owns its destination address; its source address is that of the link it
  left by. Clock readings and events are inputs. The kernel's table is the set of routes added and not deleted.
- Hypotheses, written as preconditions: ids index the graph and neighbour ids lie in 1..N; a router has at most one link to each
  neighbour id and address; the clock does not run backwards, and has moved on by the time a link's heartbeat timer fires; in
  `Coverage.dfy` also that links are symmetric and bear the addresses their far ends use.

## Where the code differs from what one might expect

- A newer record with the same content is dropped and the old time stamp stays. `MergeOrderIrrelevantIff` says exactly when the
  order of two records matters to the database, `StaleContentIff` and `NewestContentIsLostIff` exactly when late records make a
  router lose the newest content, `OvertakingRun` exhibits the run, and `FloodCoverage` characterises exactly which routers a
  flood reaches. The stamps of agreeing databases differ, therefore; `ConvergedNetworkDelivers` does not need them to agree.
- The hop metric starts at 1, so tests/algorithm/check_pathfind.c:279-281 expect one less than the code computes. On overflow
  `s_d_safe_add` yields -1, not a saturated value; `HopMetricExact` says exactly when the metric is right, and
  `OverflowStartsOver` shows it go wrong on the fourth link of metric 10000.
- A full mirror drops new routes silently. `ExactReconciliation` and `KernelExactIff` say exactly when mirror and kernel are right
  after an update, `OverflowLeaks` that otherwise a route is forgotten, `LeakPersists` that it then stays in the kernel for
  good, and `LinksGoDown` that links which go down bring this about with the code's own sizes.
- The protocol takes OSPF as its example (README.md:5) but implements none of RFC 2328; the code alone is the specification here.

## Model

| member | source | states |
|---|---|---|
| Network.NodesEq | src/algorithm/node.c:15-26 | decides content equality: id, state, and neighbour, status and metric of every link, whatever the addresses and times |
| MinHeap.SiftDownStep | src/algorithm/heap.c:61-75 | exchanging an oversized key with its smallest child leaves the child's slot as the only place where heap order can fail |
| MinHeap.SiftUpStep | src/algorithm/heap.c:35-39 | exchanging an undersized key with its parent leaves the parent's slot as the only place where heap order can fail |
| MinHeap.RootIsLeast | src/algorithm/heap.c:83-93 | in a heap in order no key is below the root's |
| MinHeap.MinHeap.Insert | src/algorithm/heap.c:30-40 | adds exactly the given pointer and keeps heap order |
| MinHeap.MinHeap.Heapify | src/algorithm/heap.c:61-75 | repairs order below an oversized key without changing which pointers are held |
| MinHeap.MinHeap.BuildHeap | src/algorithm/heap.c:77-81 | restores heap order over the same distinct pointers from any keys whatever |
| MinHeap.MinHeap.Pop | src/algorithm/heap.c:83-93 | removes exactly one pointer, one of least key, and keeps heap order |
| ShortestPaths.PopKeepsSearch | src/algorithm/pathfind.c:131-135 | popping a least queued node keeps labels, order of distances and relaxed links as the search needs them |
| ShortestPaths.ImprovedIsQueued | src/algorithm/pathfind.c:145-148 | a strict improvement only ever concerns a node not popped yet and never the source |
| ShortestPaths.RelaxKeepsSearch | src/algorithm/pathfind.c:143-150 | overwriting distance and predecessor on an improvement keeps the search invariant |
| ShortestPaths.LabelsAreLowerBounds | src/algorithm/pathfind.c:128-155 | no admissible walk is lighter than the label of its end |
| ShortestPaths.LabelsAreWeights | src/algorithm/pathfind.c:128-155 | a label below the sentinel is the weight of an admissible walk |
| ShortestPaths.LabelsAreDistances | src/algorithm/pathfind.c:128-155 | every label is the smaller of the sentinel and the least weight over all admissible walks |
| ShortestPaths.PoppedOnceInOrder | src/algorithm/pathfind.c:131-135 | the nodes popped are those with a known record, each once, in non-decreasing distance |
| ShortestPaths.PredecessorIffReachable | src/algorithm/pathfind.c:18-25 | when N maximal metrics stay below the sentinel, a predecessor is recorded exactly for the other nodes an admissible walk reaches |
| Pathfind.DijkstraInit | src/algorithm/pathfind.c:11-44 | fresh distinct nodes that mirror the graph, source at 0, all else at the sentinel |
| Pathfind.HeapInit | src/algorithm/pathfind.c:46-54 | the heap holds exactly the nodes with a known record, in order |
| Pathfind.PopNext | src/algorithm/pathfind.c:132 | the popped pointer is a node of least distance among those not popped yet |
| Pathfind.Improve | src/algorithm/pathfind.c:147-149 | a key changed through the node table leaves a heap in order for the new keys |
| Pathfind.RelaxLinks | src/algorithm/pathfind.c:136-151 | after the inner loop no link of the popped node offers an improvement, and the invariant holds |
| Pathfind.Dijkstra | src/algorithm/pathfind.c:128-155 | terminates with every node at its distance and with a tree of predecessors that explains them |
| Pathfind.GetNextHop | src/algorithm/pathfind.c:67-90 | the backtrace terminates (pop order is the measure) and yields first hop, its link's status and the hop metric of the tree path; -1 without one |
| Pathfind.GetDstIp | src/algorithm/pathfind.c:92-104 | returns the destination's address on the last link; the abort is unreachable |
| Pathfind.GetNextHops | src/algorithm/pathfind.c:106-126 | every entry of the table is the one the labels determine |
| Pathfind.Pathfind | src/algorithm/pathfind.c:157-161 | on return the table is that of a finished search over the graph |
| Routes.SafeAddFits | src/algorithm/pathfind.c:56-65 | the addition stays within a short, and is exact when the sum fits |
| Routes.SafeAddOverflows | src/algorithm/pathfind.c:56-65 | for metrics up to 10000 a sum that does not fit becomes -1, and any other is exact |
| Routes.HopMetricExact | src/algorithm/pathfind.c:56-82 | the emitted metric is 1 plus the truncated link metrics of the path exactly when that is at most 32767 |
| Routes.OverflowStartsOver | src/algorithm/pathfind.c:56-82 | over links of metric 10000 the emitted metric is 30001 after three hops, -1 after four and 9999 after five |
| Routes.HopMetricBounds | src/algorithm/pathfind.c:71-79 | a metric that fits lies above 1 + distance - hops and at most at 1 + distance; with unit metrics it is 1 + hops |
| Routes.RouteIsShortest | src/algorithm/pathfind.c:67-104 | a route leaves over a usable link of the source, with that link's status, that starts a least-weight walk; its address is the last link's |
| Routes.RouteMetric | src/algorithm/pathfind.c:67-82 | a route's metric is 1 plus the truncated metrics of a least-weight walk over the next hop exactly when that fits a short, then within one per link of the distance, and 1 + links in LSR; otherwise what the code's addition makes of that walk |
| Routes.NoRouteIff | src/algorithm/pathfind.c:106-126 | in a closed graph -1 is emitted exactly for the source and for destinations left at the sentinel, with all other fields zero |
| Forwarding.OneHop | src/algorithm/pathfind.c:84-89 | the next hop's own distance to the destination is less by exactly the metric of the link to it |
| Forwarding.LoopFreeDelivery | src/algorithm/pathfind.c:106-161 | following the tables of all routers reaches the destination with no router twice, in at most N-1 hops, at the first router's distance |
| Forwarding.ForwardingIsDeterministic | src/algorithm/pathfind.c:106-126 | the tables prescribe a single path between two routers |
| Forwarding.DelayTolerantDominates | src/algorithm/pathfind.c:136-151 | DTLSR reaches what LSR reaches at no greater distance, and LSR's least walks use links that are up |
| Forwarding.StatusesDoNotMatter | src/algorithm/pathfind.c:137-142 | in DTLSR changing link statuses changes neither the walks nor their weights |
| Forwarding.LsrWalksAreUp | src/algorithm/pathfind.c:137-142 | in LSR every admissible walk is over links that are up |
| Agreement.SameTable | src/algorithm/pathfind.c:106-161 | a table computed over one graph is a table over any other that has the same states, and the same links of seen records |
| Agreement.AgreeingTables | src/algorithm/pathfind.c:106-161 | if all databases say the same as g, the routers' own tables are tables over g |
| Agreement.AgreeingRoutersDeliver | src/algorithm/pathfind.c:106-161 | loop-free delivery at the computed distance when each router computes over its own database and these agree |
| LinkHistory.LSTimeSeries.constructor | src/algorithm/link_hist.c:114-122 | a history of one toggle into the given state |
| LinkHistory.WrappedIndex | src/algorithm/link_hist.c:65 | unsigned wrap-around below slot 0 goes on from slot 63 |
| LinkHistory.LSTimeSeries.Record | src/algorithm/link_hist.c:103-111 | the buffer holds the window with the new time pushed, the oldest dropped once full |
| LinkHistory.LSTimeSeries.ToggleState | src/algorithm/link_hist.c:101-112 | state and log advance by one toggle; the buffer holds exactly the last min(n, 64) toggle times |
| LinkHistory.LSTimeSeries.LastIdx | src/algorithm/link_hist.c:48-51 | the slot of the oldest retained time |
| LinkHistory.LSTimeSeries.SumSegments | src/algorithm/link_hist.c:86-94 | the backward loop adds the current segment and every second one before it |
| LinkHistory.LSTimeSeries.UpFraction | src/algorithm/link_hist.c:82-97 | the quotient formed is the ideal weighted fraction of the retained window spent up |
| LinkHistory.LSTimeSeries.AverageUptime | src/algorithm/link_hist.c:61-78 | the fraction of the retained window's milliseconds spent up, also with one state only, in [0,1]; 1 or 0 by the present state when the window is empty |
| LinkHistory.LSTimeSeries.WeightedAverageUptime | src/algorithm/link_hist.c:81-99 | the fourth power of the E-weighted fraction of the window spent up, in [0,1] |
| LinkHistory.LSTimeSeries.ComputeMetric | src/algorithm/link_hist.c:53-59 | positive, at most 10000, 1 while the link is up |
| LinkHistory.CurrentSumGivesUptime | src/algorithm/link_hist.c:68-76 | alternate segments, complemented when down, add up millisecond by millisecond to the time up |
| LinkHistory.UptimeInUnitInterval | src/algorithm/link_hist.c:77 | the fraction lies in [0,1] once now is after the oldest toggle |
| LinkHistory.UptimeOfOneState | src/algorithm/link_hist.c:62 | a history of one toggle has the ideal fraction, 1 if up and 0 if down |
| LinkHistory.AverageCounts | src/algorithm/link_hist.c:61-78 | the plain fraction is the number of milliseconds up over the number in the window |
| LinkHistory.MetricWrittenOut | src/algorithm/link_hist.c:53-59 | for u the share of up time with each moment weighted by E, the weighted average is u to the fourth, and metric * (u to the fourth + 0.0001) = 1 while down |
| LinkHistory.NeverUpIsDearest | src/algorithm/link_hist.c:53-59 | a link never up has metric 10000 at any time |
| LinkHistory.DecayIsRelative | src/algorithm/link_hist.c:41-46 | taking the falloff relative to now does not change the fraction |
| LinkHistory.MetricDecays | src/algorithm/link_hist.c:53-59 | while a link stays down its metric never decreases |
| Database.GraphInit | src/algorithm/ls_graph.c:11-17 | every entry gets its id, unseen, time 0 |
| Database.MarkNeighbours | src/algorithm/ls_graph.c:88-93 | exactly the unseen neighbours become opaque |
| Database.MergeInNode | src/algorithm/ls_graph.c:65-96 | the graph becomes the merge, and the result tells whether the record was accepted |
| Database.MergeInGraph | src/algorithm/ls_graph.c:34-63 | the graph becomes the entrywise merge, and the result tells whether any entry was accepted |
| Database.UpdateGlobal | src/algorithm/ls_graph.c:21-31 | the own entry is the own record, its unseen neighbours become opaque |
| Database.MergedEntry | src/algorithm/ls_graph.c:65-86 | what becomes of an entry, by states; a seen one is replaced by a seen record exactly if that is newer and its number of links, or a link's neighbour, status or metric differs |
| Database.RefreshIsNoNews | src/algorithm/node.c:15-26 | a record with the same links but for addresses is neither stored nor passed on, whatever its stamp |
| Database.MergesAreOfEntries | src/algorithm/ls_graph.c:34-96 | a record is merged so into the entry of its origin, a whole graph into each entry |
| Database.OtherEntries | src/algorithm/ls_graph.c:88-95 | other entries become opaque exactly if unseen and named by a link of the record, even if that is no news |
| Database.MergeIsIdempotent | src/algorithm/ls_graph.c:34-96 | merging the same record or graph again is no update and changes nothing |
| Database.MergeOrderIrrelevantIff | src/algorithm/ls_graph.c:80-85 | two records of one origin may be swapped exactly when the older is no news or the newer differs from both entry and older |
| Database.StaleContentIff | src/algorithm/ls_graph.c:80-85 | two records leave the newer one's content in order; out of order they do not exactly when the newer only refreshes the entry and the older is newer than the entry's stamp and differs |
| Database.OvertakingLeavesStaleContent | src/algorithm/ls_graph.c:80-85 | three records that meet that condition |
| Database.NewestContentIsLostIff | src/algorithm/ls_graph.c:80-85 | late records, any number in any order, make a router lose the newest content exactly when one differs and is newer than the stamp kept |
| Overtaking.OvertakingRun | src/algorithm/ls_graph.c:80-85 | from any state of a network, a run in which a router's second announcement overtakes its first; it leaves its neighbour with other than its present content exactly under that condition |
| Database.LastWriterWins | src/algorithm/ls_graph.c:65-96 | after in-order delivery per origin, in any interleaving, each entry has the content of its origin's last record |
| Database.MergeKeepsDatabase | src/algorithm/ls_graph.c:34-63 | merging a closed graph into a closed graph keeps it closed and well formed |
| Database.WritersKeepDatabase | src/algorithm/ls_graph.c:19-96 | every writer keeps ids in place and each neighbour of a seen node not unseen |
| Protocol.CopyPerLink | src/algorithm/local_graph.c:92-106 | every link but those to the excepted address gets a copy |
| Protocol.LinkPerCopy | src/algorithm/local_graph.c:92-106 | and nothing else does |
| Protocol.CopiesAreCounted | src/algorithm/local_graph.c:92-106 | there is exactly one copy per link that is not excepted |
| Protocol.ForwardedCopies | src/algorithm/local_graph.c:116-126 | an accepted record is passed on over every link but the one to the address it came from, and a rejected one over none |
| Protocol.ReceivedEntries | src/algorithm/ls_graph.c:100-109 | receiving merges each entry with what the packet brings for it and leaves the own record |
| Protocol.NeighbourGetsGraph | src/algorithm/ls_graph.c:112-131 | a neighbour's request is answered with one packet, to that neighbour, that holds the whole graph |
| Protocol.StrangerGetsNothing | src/algorithm/ls_graph.c:122 | a request from elsewhere is not answered |
| Daemon.LocalNode.constructor | src/process/core_node.c:59-85 | all links down, one history each whose only entry is now |
| Daemon.LocalNode.SetStatus | src/algorithm/local_graph.c:16-19 | status and history of one link change together, all others stay |
| Daemon.LocalNode.RegisterHeartbeat | src/algorithm/local_graph.c:8-31 | reports exactly whether some link from the address is down, raises the first such, and leaves all others |
| Daemon.LocalNode.TimeoutHeartbeat | src/algorithm/local_graph.c:51-66 | drops the link exactly if it was up, reports that, and leaves all others |
| Daemon.LocalNode.UpdateMetrics | src/algorithm/local_graph.c:75-87 | only metrics and time change; each metric is the one its link's history gives, in (0, 10000], and 1 unless down in DTLSR; a link that is down does not get a smaller one than the last measurement gave |
| Daemon.SendExcept | src/algorithm/local_graph.c:92-106 | sends exactly the copies for all links but the excepted |
| Daemon.SendNetworkLsa | src/algorithm/ls_graph.c:112-131 | replies with the whole graph to a neighbour, and to nobody else |
| Daemon.Daemon.constructor | src/dtlsr_main.c:137-150 | boots with a database of the own record and its opaque neighbours |
| Daemon.Daemon.ReceiveRouterLsa | src/algorithm/local_graph.c:116-126 | new state and forwarded packets are those of the router function |
| Daemon.Daemon.ReceiveNetworkLsa | src/algorithm/ls_graph.c:100-109 | the state is that of the router function, nothing is sent |
| Daemon.Daemon.ReceiveNetworkLsaRequest | src/algorithm/ls_graph.c:133-139 | the reply is that of the router function |
| Daemon.Daemon.UpdateGlobalThis | src/algorithm/ls_graph.c:19-32 | measures the own record anew and stores it |
| Daemon.Daemon.Recompute | src/dtlsr_main.c:173-177 | the new table is computed from the graph that holds the record just measured, and all its next hops are neighbours |
| Daemon.Daemon.HandleLinkEvent | src/dtlsr_main.c:75-77 | reports an update exactly when a link changes state |
| Daemon.Daemon.Announce | src/dtlsr_main.c:169-172 | sends the record just measured over every link |
| Daemon.Daemon.HandleEvent | src/dtlsr_main.c:156-177 | one turn of the loop for any event: the resulting record with the metrics its histories give, graph, table and packets |
| Daemon.ChangeIsAnnounced | src/dtlsr_main.c:166-177 | a heartbeat that finds the sender's link down, or a time-out that finds it up, changes that link alone, sends the record with the change over every link, and stores it |
| Daemon.TimerAnnounces | src/dtlsr_main.c:169-172 | the announcement timer sends the measured record over every link and stores nothing |
| Daemon.TimerStores | src/dtlsr_main.c:173-177 | the recomputation timer stores the measured record and sends nothing |
| Daemon.NothingHappens | src/algorithm/local_graph.c:8-66 | a heartbeat or time-out that ends no link's state changes nothing and sends nothing |
| Daemon.Daemon.FreshMeans | src/dtlsr_main.c:173-177 | after a path computation the table is that of the stored graph, over neighbours, and the own metrics are those of the histories |
| Daemon.Daemon.RequestNetworkLsa | src/dtlsr_main.c:122-134 | asks every neighbour once |
| Turns.ArrivalsAreExpected | src/dtlsr_main.c:78-91 | what the handling of an arriving packet presupposes holds of every packet in flight |
| Turns.TurnIsRun | src/dtlsr_main.c:156-177 | a turn is a run of the network from the router's state: the delivery of the packet that arrived, or sending and storing the records it made |
| Turns.BootIsRestart | src/dtlsr_main.c:142-154 | a boot is a restart in the network: the router knows its own record and that its neighbours exist, and asks each of them |
| Daemon.EventGivesNextRecord | src/algorithm/local_graph.c:8-87 | what an event makes of the own record is a step the network model allows |
| Flooding.StepKeepsSane | src/dtlsr_main.c:165-177 | sending, storing, delivering, losing and restarting all keep the invariant of the network |
| Flooding.NoFabrication | src/algorithm/ls_graph.c:19-96 | in every reachable state each seen record, stored or in flight, is one its origin really had, and none is from the future |
| Flooding.EntriesNeverGoBack | src/algorithm/ls_graph.c:34-96 | no step but a restart lowers an entry's state or a seen entry's time |
| Flooding.ReceiveShrinksRank | src/algorithm/local_graph.c:116-126 | a delivery sends less than the packet's weight plus fan-out times the improvement it makes |
| Flooding.DeliveryShrinksMeasure | src/algorithm/local_graph.c:92-126 | every delivery or loss strictly decreases fan-out times remaining rank plus packets in flight |
| Flooding.FloodingTerminates | src/algorithm/local_graph.c:92-126 | without originations every run of deliveries and losses is bounded by the initial measure |
| Coverage.SkippedIsSender | src/algorithm/local_graph.c:95-96 | the only link left out when forwarding leads back to the sender |
| Coverage.SendingStartsFlood | src/dtlsr_main.c:169-172 | an announcement establishes the flood invariant's start, if no record of its origin, graph with a seen entry for it, or request is in flight |
| Coverage.StepSpreads | src/algorithm/local_graph.c:92-126 | each neighbour of an accepting router has accepted, has no use for the record, or has a copy on its way, through deliveries, stored records, other announcements and losses of other packets |
| Coverage.FloodCoverage | src/algorithm/local_graph.c:92-126 | once quiet, the routers that hold the record are exactly those connected to the origin through routers to which it was news |
| Coverage.ReplySilencesRouter | src/algorithm/ls_graph.c:100-109 | a router that gets the record in a whole graph does not pass it on, then or when its copy arrives |
| Coverage.NewsReachesAllConnected | src/algorithm/local_graph.c:92-126 | if it was news to all, these are all routers connected to the origin |
| RouteControl.ReduceRoutesToSubnets | src/process/route_control.c:164-171 | clears the last octet of destinations in use, and nothing else |
| RouteControl.RemoveDuplicates | src/process/route_control.c:152-162 | invalidates exactly the entries that repeat an earlier pair of next hop and destination |
| RouteControl.PairsKeptOnce | src/process/route_control.c:152-162 | every pair of next hop and destination survives, in one place only |
| RouteControl.DeriveRtentries | src/process/route_control.c:100-117 | each entry becomes the route over the first link to its next hop |
| RouteControl.WantedIsVia | src/process/route_control.c:100-117 | every wanted route comes from an entry, the first of its next hop and subnet, and has its destination's first three octets, its next hop's address and its metric |
| RouteControl.WantedIsFunctional | src/process/route_control.c:152-162 | one wanted route per gateway and subnet |
| RouteControl.WantedIsComplete | src/process/route_control.c:130-150 | no entry's subnet and gateway get lost |
| RouteControl.SubnetIs24 | src/process/route_control.c:164-171 | the mask clears the last octet, so addresses share a subnet exactly if the first three agree |
| RouteControl.WantedIff | src/process/route_control.c:100-171 | exactly which routes a table asks for: per next hop and /24 subnet one, from the first entry that has them, with its metric, through the neighbour's address |
| RouteControl.DeriveRouteMisses | src/process/route_control.c:100-117 | an entry whose next hop is no neighbour becomes the all-zero route |
| RouteControl.RouteMirror.AddRoutes | src/process/route_control.c:119-128 | the kernel gains exactly the wanted routes |
| RouteControl.RouteMirror.MarkRoutesUnseen | src/process/route_control.c:29-33 | all marks are off, the mirrored routes stay |
| RouteControl.RouteMirror.AddToCurrRoutes | src/process/route_control.c:35-42 | fills a free slot, or leaves a full mirror as it is |
| RouteControl.RouteMirror.MarkRouteSeen | src/process/route_control.c:46-59 | the marking invariant holds with one more route |
| RouteControl.RouteMirror.RemoveMarkedRoutes | src/process/route_control.c:85-98 | mirror and kernel lose exactly the mirrored routes not marked |
| RouteControl.SeenAllIff | src/process/route_control.c:46-59 | all wanted routes end up marked exactly when old and wanted ones fit in the slots together |
| RouteControl.RouteMirror.UpdateRoutingTable | src/process/route_control.c:173-192 | the mirror keeps what is still wanted, holds nothing else, and is exact iff old and wanted fit; the kernel gains the wanted and loses the mirrored rest |
| RouteControl.TwoRoundsConverge | src/process/route_control.c:173-192 | two updates with the same routes make any mirror exact, and further ones change nothing |
| RouteControl.ExactReconciliation | src/process/route_control.c:173-192 | from agreement one update makes the kernel exact, and the mirror agrees exactly when all routes fit |
| RouteControl.KernelExactIff | src/process/route_control.c:85-98 | the kernel ends up exact exactly when the mirror remembers every route to be dropped |
| RouteControl.OverflowLeaks | src/process/route_control.c:35-42 | from agreement an update leaves an installed route that the mirror does not remember exactly when old and wanted routes do not fit |
| RouteControl.LeakPersists | src/process/route_control.c:85-98 | such a route stays in the kernel through any updates that do not want it |
| FullMirror.TableIsComputed | src/algorithm/pathfind.c:106-161 | the tables of the example are those of a finished search over its graph |
| FullMirror.LinksGoDown | src/process/route_control.c:173-192 | with 12 slots and a computed table of seven routes, all links going down leaves a route in the kernel that the mirror does not remember |
| EndToEnd.SentinelIsLarge | src/algorithm/pathfind.c:18-20 | twelve links of 50,000 stay below the sentinel |
| EndToEnd.ReachableMetrics | src/algorithm/link_hist.c:53-59 | every metric in a reachable database is positive and at most 10000 |
| EndToEnd.RoutesAreExact | src/algorithm/pathfind.c:106-161 | in every reachable state a table has routes exactly for the other routers reachable in the database, via neighbours |
| EndToEnd.InstalledRoutesAreReal | src/process/route_control.c:100-117 | every route asked of the kernel leads through a neighbour's address to the subnet of a reachable router, with the table's metric |
| EndToEnd.ConvergedNetworkDelivers | src/algorithm/pathfind.c:106-161 | once all databases agree in content, whatever their time stamps, the routers' tables deliver without loops at the computed distance |
| EndToEnd.UpToDateNetworkDelivers | src/algorithm/pathfind.c:106-161 | once all databases have the content of the routers' present records, routes exist exactly where the present network connects, and deliver at its distances |
| EndToEnd.FloodMakesUpToDate | src/algorithm/local_graph.c:92-126 | a flood without lost copies of a record that is news to all makes all connected routers up to date about its origin |

## Left out

- Sockets, `select`, timers as file descriptors, daemonising, logging and config parsing: events, clock readings and the initial wiring are inputs.
- Packet capture and replay (src/network/capture.c), including the replay timer and the capture steps of the event loop.
- `minheap_decrease_dist` (src/algorithm/heap.c:43-59): the search does not call it.
- `set_gateway_route`, `simple_rt_addr_eq`, `log_routes` and the heartbeat and default-route programs.
- Floating-point rounding, and `exp` and `pow` with parameters other than the defaults.
- The 64-bit width of time stamps: times in milliseconds do not reach it.
- HandleEvent: does not include the call of `update_routing_table` that opens each turn of the loop; it is `UpdateRoutingTable`, and `InstalledRoutesAreReal` connects the two.
- UpdateMetrics: excludes the quotient 0/0 that the code forms when all retained toggles and the present fall into one millisecond; the timer hypothesis rules it out.
- SafeAddFits: says nothing exact about sums beyond a short; there the conversion from `double` is undefined in C, and the model wraps it.
- LoopFreeDelivery: is about tables over one graph, which those of databases that agree in content are (`AgreeingTables`); while contents differ between routers the code promises nothing.
- FloodCoverage: excludes what breaks coverage, which is restarts, requests in flight, and whole graphs in flight that hold a seen entry of the origin; see `ReplySilencesRouter`. A second announcement of the origin before the first has died down is not covered either.
- Real kernel behaviour behind `ioctl`, and the updates before the first path computation, whose zero-filled table asks for an all-zero route.
