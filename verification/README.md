# Routing, protocol and allocation logic of the p2p mesh

This project models the stateful logic of the mesh in Dafny and proves properties of it. Each component of the
data plane that keeps state is a class whose methods follow the original branch by branch; every method is proved
against a function of its inputs and old state, and the properties below are proved about those functions over all
runs. Clock readings, random secrets and nonces, database rows and upstream DNS answers are parameters. Node names,
device names and addresses are opaque, except where bits matter (CIDR prefixes, Kademlia identifiers, DNS bytes).
Iteration over a hash map or hash set visits its entries in an arbitrary order.

| file | component |
|---|---|
| `DistanceVector.dfy` | one distance-vector node: table, update processing, split horizon with poison reverse |
| `DvNetwork.dfy` | a growing network of such nodes; updates travel through FIFO queues and may be lost; the invariant of the tables and of the system |
| `DvRuns.dfy` | what every event keeps, and so every run |
| `DvSafety.dfy` | loop freedom, finitely many changes, exact change lists |
| `DvInstall.dfy` | installations at any moment: exact effect at once, one that is outgrown, one that ends in a loop |
| `DvConvergence.dfy` | convergence to shortest distances |
| `Topology.dfy` | node, link and adjacency maps; hop-count Dijkstra |
| `Router.dfy` | route lists, longest-prefix lookup, ECMP groups |
| `Kademlia.dfy` | XOR metric, buckets, closest peers |
| `Noise.dfy` | the Noise IK handshake (section 7.5 of the Noise Protocol Framework) with symbolic cryptography, transport keys |
| `DnsCodec.dfy`, `MeshDns.dfy` | the DNS query builder and response parser (RFC 1035, section 4.1); the cached mesh resolver |
| `Gossip.dfy` | SWIM membership merging |
| `Ice.dfy`, `Connectivity.dfy` | ICE priorities and check list (RFC 8445); round-trip estimator and failure detector |
| `RateLimit.dfy`, `Ipam.dfy` | the sliding-window limiter; the overlay address allocator |
| `Common.dfy`, `Sorting.dfy` | shared facts: pigeonhole, stable sort, filtering |

## Where the code and its documentation disagree

The model follows the code. Unless a point says otherwise, the exact condition under which the code keeps the promise is
proved.

- "No unpoisoned metric of 16 or more" (a test of the distance-vector module) fails for 15 + 1: `BoundedExactly`, `BoundedCanFail`.
- Metrics do rise: in any state exactly when the node itself installs the network above what it holds, or when its next hop
  takes back what it promised (`NextRisesExactly`); as long as every installation is safe, only the former happens
  (`SafeNextRisesExactly`).
- The invariant behind loop freedom and convergence survives an installation, first or repeated, at any metric, exactly when
  no other node and no update on its way counts on something better (`InstallKeepsInvExactly`). For loop freedom in all
  later runs this is sufficient (`LoopFree`) and not necessary (`UnsafeInstallHeals`); a run past an unsafe installation can
  end in a loop (`LateInstallLoops`). At the instant of the installation the exact condition is `InstallArrivesExactly`.
- A poisoned route is never advertised, so withdrawal does not spread, however many updates follow:
  `WithdrawalIsNotPropagated`.
- Adjacency is symmetric until a node with neighbours is removed: `RemoveNodeSymmetry`.
- A stored /0 route never matches: `ZeroPrefixIsIgnored`.
- ECMP groups outlive the routes they were built from: `AddKeepsGroupExactly`, `RemoveKeepsGroupExactly`,
  `SetActiveKeepsGroupExactly`, `UpdateMetricKeepsGroupExactly`, `GroupCanGoStale`, `GroupCanGoStaleInPlace`; and they are
  formed only when a route is added: `SetActiveMissesGroupExactly`, `GroupCanBeMissing`.
- `transport_keys()` is not swapped for the responder: `TransportKeysFitTheInitiatorOnly`.
- "Mutual authentication" is not reached by the first message: an opening is accepted in anyone's name
  (`AcceptanceNamesAnyone`). The keys make up for it: `KeysReachExactly`.
- Equal transport keys do not by themselves mean the right peer, because Diffie-Hellman results are not checked for zero:
  `ZeroKeysAgree`. `EqualKeysMeanTheSamePeers` has the exact condition on what was delivered; for an initiator that started
  from a genuine public key, equal keys do mean the right peer.
- A rejected opening spoils the responder for a later honest one: `RetryAfterRejection`.
- Host names with an empty label (a trailing dot) or one of more than 63 bytes make a question that does not read back:
  `QueryReadsBack`; those with an empty label, and answer names that end in a pointer, are skipped wrongly:
  `QuestionSkippedExactly`, `NameSkippedExactly`.
- Requests that share a millisecond escape the limiter: `SharedMillisecond`; how many do: `CapacityIsExact`.
- Gossip reports with equal incarnations do not commute: `ReportsCommuteExactly`.
- A rumour of our death raises a counter that is never published, so unless the application itself adds our own name with
  a newer incarnation, no node that holds us hears the rumour refuted: `OwnEntryStaysAtZero`, `RumourIsNeverRefuted`.
- Two ICE agents order mirrored pairs of equal (minimum, maximum) differently: `MirrorKeepsOrderExactly`; pair
  priorities are lexicographic only up to 2^31: `LexicographicUpTo`.

## Model

| member | source | states |
|---|---|---|
| DistanceVectors.DistanceVector.AddConnectedRoute | data-plane/src/mesh_routing/distance_vector.rs:110-128 | the table gains a connected, unpoisoned entry whose next hop is the node itself; nothing else changes |
| DistanceVectors.DistanceVector.ProcessUpdate | data-plane/src/mesh_routing/distance_vector.rs:136-212 | for any list of adverts, repetitions included, the table and the change list are those of processing them one by one: dead adverts poison routes through the sender, the current next hop is always believed, others only when strictly better |
| DistanceVectors.DistanceVector.BuildUpdate | data-plane/src/mesh_routing/distance_vector.rs:218-240 | lists every live destination exactly once, as unreachable when its next hop is the receiver, and no dead one |
| DistanceVectors.Exchange | data-plane/src/mesh_routing/distance_vector.rs:136-240 | build then process is one pointwise merge; the change list is empty exactly when no advertised destination is reported, and then the table is untouched |
| DistanceVectors.ExchangeDecides | data-plane/src/mesh_routing/distance_vector.rs:163-240 | one exchange decides every entry, connected and poisoned ones included, from the two tables: an offer is taken if there was no entry, if it comes from the next hop with another metric, or if it is strictly better; otherwise a route sent back as unreachable poisons a learned entry through the sender; otherwise the entry stands |
| DistanceVectors.TwoNodeLoopIsCut | data-plane/src/mesh_routing/distance_vector.rs:165-178 | of two neighbours that route a destination through each other, one exchange in either direction poisons the receiver's route |
| DistanceVectors.ChangesTellTheTable | data-plane/src/mesh_routing/distance_vector.rs:163-211 | for any update, repetitions included: a destination that no change names is untouched, and the last change that names it tells the metric and the next hop of its new entry |
| DistanceVectors.OrderIsIrrelevant | data-plane/src/mesh_routing/distance_vector.rs:163-240 | the order in which the sender's hash map is listed does not influence the receiver's table |
| DistanceVectors.EmptyChangeList | data-plane/src/mesh_routing/distance_vector.rs:163-211 | the change list is empty exactly when no advert of a repetition-free update is reported against the table before it |
| DistanceVectors.NoChangeNoEffect | data-plane/src/mesh_routing/distance_vector.rs:163-211 | for any update whatever, an empty change list means an unchanged table |
| DistanceVectors.WithdrawalIsNotPropagated | data-plane/src/mesh_routing/distance_vector.rs:163-225 | once the next hop's own entry is at 16 or more, any entry through it stands through any number of exchanges, with whomever, if and only if nobody else offers a strictly better route: why the protocol does not reconverge after failures |
| DistanceVectors.KeptExactly | data-plane/src/mesh_routing/distance_vector.rs:163-240 | any entry, learned, connected or poisoned, stands through any sequence of exchanges if and only if in each of them its next hop is silent on it or repeats it, and nobody else offers less |
| DistanceVectors.FirstNewsReplaces | data-plane/src/mesh_routing/distance_vector.rs:163-240 | the first exchange that brings news replaces the entry: by the offer, via its sender and unpoisoned, or by the same route at 16 and poisoned |
| DistanceVectors.PoisonedComesBack | data-plane/src/mesh_routing/distance_vector.rs:180-204 | a poisoned entry stays dead through any sequence of exchanges if and only if none brings an offer below 16, or one of its own next hop other than 16; the first that does is taken, from whomever it comes |
| DistanceVectors.MergeRaisesExactly | data-plane/src/mesh_routing/distance_vector.rs:163-205 | for all tables and updates no entry is lost, and a metric rises if and only if the advert comes from the current next hop and is either live and worse than before, or a withdrawal of a learned entry below 16 |
| DistanceVectors.BoundedExactly | data-plane/src/mesh_routing/distance_vector.rs:163-205 | no unpoisoned metric reaches 16 after an update if and only if no live advert crosses 16 by the link cost on a destination it replaces |
| DistanceVectors.BoundedCanFail | data-plane/src/mesh_routing/distance_vector.rs:379-389 | a single advert of metric 15 over a link of cost 1 stores an unpoisoned 16 |
| DvNetwork.CurrentTableIsOk | data-plane/src/mesh_routing/distance_vector.rs:218-240 | an update built from a node's table of now is consistent with everything its receiver holds |
| DvNetwork.ReceiveAt | data-plane/src/mesh_routing/distance_vector.rs:163-205 | processing an update that was delayed arbitrarily replaces an entry only by a strictly better one and never poisons one |
| DvNetwork.ReceiveNeverRises | data-plane/src/mesh_routing/distance_vector.rs:163-205 | no delayed update raises a metric or removes an entry |
| DvNetwork.ReceiveInv | data-plane/src/mesh_routing/distance_vector.rs:136-212 | processing keeps the invariant: a route through b means b has the destination below 16 and b's metric plus the cost does not exceed ours |
| DvNetwork.ReceiveSnap | data-plane/src/mesh_routing/distance_vector.rs:136-212 | processing one update keeps every other update on its way consistent |
| DvRuns.NextInv | data-plane/src/mesh_routing/distance_vector.rs:110-240 | sending, delivering and losing updates, adding links and nodes, and every safe installation of a network, first or repeated, keep the system invariant |
| DvRuns.InstallKeepsInvExactly | data-plane/src/mesh_routing/distance_vector.rs:110-128 | installing a network at any metric over whatever is held keeps the system invariant if and only if every node routing through the installer still gets what it counts on, no queued update of the installer promises less, and no queued update to it hides a route behind it that the new metric is too large for |
| DvRuns.RunInv | data-plane/src/mesh_routing/distance_vector.rs:110-240 | the system invariant holds after every sequence of such events, installations being safe |
| DvRuns.RunNeverRises | data-plane/src/mesh_routing/distance_vector.rs:110-240 | over every sequence of such events no entry is lost, and no metric rises that its own node does not raise |
| DvRuns.NextRisesExactly | data-plane/src/mesh_routing/distance_vector.rs:110-205 | in any state whatever, an event raises a metric if and only if it installs that network at that node above the metric held, or delivers an update in which the next hop takes back what it promised |
| DvRuns.SafeNextRisesExactly | data-plane/src/mesh_routing/distance_vector.rs:110-205 | in states that satisfy the invariant only the former happens |
| DvRuns.MetricsAreReal | data-plane/src/mesh_routing/distance_vector.rs:110-240 | as long as no installed network is given another metric, every metric held or queued is the cost of a real walk |
| DvSafety.ForwardArrives | data-plane/src/mesh_routing/distance_vector.rs:163-205 | following next hops ends at a connected owner, along real links, at total cost at most the stored metric |
| DvSafety.ForwardDescends | data-plane/src/mesh_routing/distance_vector.rs:163-205 | the stored metric strictly drops at every hop |
| DvSafety.LoopFree | data-plane/src/mesh_routing/distance_vector.rs:90-240 | in every state reachable without failures and by safe installations only, forwarding repeats no node, descends in metric at every hop and arrives along links that cost no more than the stored metric, nothing is poisoned, and without repricing the metric is the cost of a walk |
| DvSafety.ChangeDescends | data-plane/src/mesh_routing/distance_vector.rs:180-204 | every processed update that changes a table strictly decreases the sum of metrics in which a missing entry outweighs any metric |
| DvSafety.FinitelyManyChanges | data-plane/src/mesh_routing/distance_vector.rs:180-211 | between two changes of the network only finitely many events, bounded by that sum, change any table |
| DvSafety.ChangeListIsExact | data-plane/src/mesh_routing/distance_vector.rs:163-211 | in reachable states the change list is empty if and only if processing changes nothing |
| DvInstall.LateInstallLoops | data-plane/src/mesh_routing/distance_vector.rs:110-205 | a reachable state of four nodes in which an unsafe installation leaves every table in order and yet, after an older update and two exchanges, forwarding runs in a circle of three, where one more exchange raises the metric of a node that installed nothing |
| DvInstall.UnsafeInstallHeals | data-plane/src/mesh_routing/distance_vector.rs:110-205 | a reachable state in which an unsafe installation leaves every table in order and the invariant is back, with no table changed, once the update that counts on more is processed or lost |
| DvInstall.InstallArrivesExactly | data-plane/src/mesh_routing/distance_vector.rs:110-128 | at the instant of an installation every packet, to whatever destination, still arrives within the stored metric if and only if each other node that routes through the installer can pay the link and the new metric |
| DvSafety.DeliverTo | data-plane/src/mesh_routing/distance_vector.rs:136-212 | processing by the object is the network's delivery step, and its change list tells whether anything changed |
| DvConvergence.ReceiveCovers | data-plane/src/mesh_routing/distance_vector.rs:163-240 | an update that accounts for the rest of a walk makes its receiver account for the walk, even when poison reverse hides the route |
| DvConvergence.ArrivalCovers | data-plane/src/mesh_routing/distance_vector.rs:136-240 | the same over a whole run, from the queue position of the update until it is processed |
| DvConvergence.PhasesCover | data-plane/src/mesh_routing/distance_vector.rs:136-240 | after k phases all walks of at most k links below 16 are accounted for |
| DvConvergence.CoveredIsExact | data-plane/src/mesh_routing/distance_vector.rs:163-205 | 15 links, or one less than the nodes, are enough for every distance below 16 |
| DvConvergence.Convergence | data-plane/src/mesh_routing/distance_vector.rs:130-240 | from every reachable state, after min(15, nodes - 1) phases each link of which carries one update, a node stores metric m below 16 for a destination if and only if m is its true shortest distance, whatever else is delayed or lost |
| DvConvergence.PhasesExist | data-plane/src/mesh_routing/distance_vector.rs:136-240 | from every reachable state any number of phases can follow, so convergence is always attainable |
| DvConvergence.QuiescentIsOptimal | data-plane/src/mesh_routing/distance_vector.rs:130-240 | a state that no fresh update would change already holds the shortest distances |
| Topology.TopologyManager.UpsertNode | data-plane/src/mesh_routing/topology.rs:124-134 | the node is stored, gets an empty neighbour set only if it had none, and the version rises by one |
| Topology.TopologyManager.RemoveNode | data-plane/src/mesh_routing/topology.rs:137-146 | the node and its own neighbour set go; links and other neighbour sets stay |
| Topology.TopologyManager.AddLink | data-plane/src/mesh_routing/topology.rs:149-159 | the directed link is stored and both nodes become neighbours of each other |
| Topology.TopologyManager.RemoveLink | data-plane/src/mesh_routing/topology.rs:162-173 | the directed link goes, both adjacency directions go, the version stays |
| Topology.TopologyManager.ShortestPath | data-plane/src/mesh_routing/topology.rs:176-237 | returns a path with the fewest hops of all paths and its hop count, for every tie-breaking, and None exactly when an endpoint is unknown or unreachable |
| Topology.RelaxNeighbors | data-plane/src/mesh_routing/topology.rs:220-233 | following all edges out of the visited node settles them in any order and keeps the search sound |
| Topology.Reconstruct | data-plane/src/mesh_routing/topology.rs:206-215 | the prev entries lead back to the source in exactly as many steps as the recorded distance |
| Topology.Frontier | data-plane/src/mesh_routing/topology.rs:187-234 | on every path from the source the search has either settled the end or holds an open node no farther than its position |
| Topology.NearestIsShortest | data-plane/src/mesh_routing/topology.rs:195-216 | the nearest open node cannot be reached in fewer hops than recorded |
| Topology.NothingOpenNothingReachable | data-plane/src/mesh_routing/topology.rs:201-236 | when nothing is open, an unvisited target is unreachable |
| Topology.RunsAreBacked | data-plane/src/mesh_routing/topology.rs:124-173 | in every run each adjacency edge is backed by a stored link in one of the directions |
| Topology.RunsAreSymmetric | data-plane/src/mesh_routing/topology.rs:124-173 | in every run without node removal the adjacency is symmetric |
| Topology.LinkedExactly | data-plane/src/mesh_routing/topology.rs:124-173 | after any run u has the neighbour v if and only if a link between them, in either direction, was added and since then neither removed, in either direction, nor u removed |
| Topology.KnownExactly | data-plane/src/mesh_routing/topology.rs:124-173 | after any run u is known if and only if it was upserted or a link touching it was added, and it was not removed since |
| Topology.StoredExactly | data-plane/src/mesh_routing/topology.rs:149-173 | after any run a directed link is stored if and only if it was added and not removed since; removing a node leaves it |
| Topology.RemoveNodeSymmetry | data-plane/src/mesh_routing/topology.rs:137-146 | removal keeps a symmetric adjacency symmetric if and only if the node had no neighbour but itself |
| Topology.RemoveNodeBreaksSymmetry | data-plane/src/mesh_routing/topology.rs:137-159 | adding one link and removing its target leaves an asymmetric adjacency |
| Topology.BothDirectionsAgree | data-plane/src/mesh_routing/topology.rs:176-237 | without node removal a and b reach each other together, by shortest paths of equal length |
| Router.RouteTable.AddRoute | data-plane/src/router/mod.rs:95-130 | the peer's old route is replaced, the list is stably sorted by metric, and a group forms when several active routes share the lowest metric |
| Router.RouteTable.RemoveRoute | data-plane/src/router/mod.rs:133-142 | the peer's route goes, and the entry with it when it was the last |
| Router.RouteTable.SetActive | data-plane/src/router/mod.rs:208-231 | every route of the peer in every list is switched, and nothing else |
| Router.RouteTable.UpdateMetric | data-plane/src/router/mod.rs:234-246 | the peer's metric is set and the list is sorted again, stably |
| Router.RouteTable.SetDefaultRoute | data-plane/src/router/mod.rs:202-205 | only the default route changes |
| Router.RouteTable.Flush | data-plane/src/router/mod.rs:269-274 | routes and groups go, the default route stays |
| Router.RouteTable.Lookup | data-plane/src/router/mod.rs:149-178 | returns the first active route of a longest usable prefix of at least one bit, else the default, for every order of visiting the map |
| Router.RouteTable.LookupEcmp | data-plane/src/router/mod.rs:182-199 | round robin over the group of the looked-up CIDR when it has several routes, else the plain lookup |
| Router.RunsAreOk | data-plane/src/router/mod.rs:95-246 | in every run each stored list is non-empty, for its own CIDR, sorted by metric, with one route per peer |
| Router.RunHoldsExactly | data-plane/src/router/mod.rs:95-274 | after any run the list of a network holds a route if and only if it is what the history of its own peer there leaves: last added, then switched and repriced, not removed or flushed |
| Router.DefaultExactly | data-plane/src/router/mod.rs:202-205 | after any run the default route is the one that was set last |
| Router.ContainsExactly | data-plane/src/router/mod.rs:154-161 | a network contains an address if and only if their first bits agree, as many as the prefix has; for a canonical network, if and only if the address lies among the 2^(32 - length) addresses from its own on |
| Router.CanonicalIsUnique | data-plane/src/router/mod.rs:154-161 | two canonical networks of equal length that share an address are equal |
| Router.LookupIsDetermined | data-plane/src/router/mod.rs:149-178 | with canonical networks the lookup has one possible result, whatever the order of the map |
| Router.CanonicalRuns | data-plane/src/router/mod.rs:95-130 | runs that add canonical networks store only canonical networks |
| Router.LookupIsBest | data-plane/src/router/mod.rs:149-178 | in every run the route found is active, of the longest usable prefix, and no active route of that prefix has a lower metric |
| Router.LookupServes | data-plane/src/router/mod.rs:95-246 | after any run the lookup returns a route that some peer holds, active and with the first bits of the address, such that no other of these has a longer prefix, or the same network and a lower metric; with none of these it returns the default |
| Router.ZeroPrefixIsIgnored | data-plane/src/router/mod.rs:150-177 | the lookup agrees with longest-prefix match over all entries if and only if a longer entry is usable, or no /0 entry is, or the default is that entry's route |
| Router.AddKeepsGroupExactly | data-plane/src/router/mod.rs:109-129 | after adding a route its group is current if and only if a group was formed now or there was none |
| Router.AddCompletesGroup | data-plane/src/router/mod.rs:109-129 | after adding a route several active routes of lowest metric always have their group stored |
| Router.RemoveKeepsGroupExactly | data-plane/src/router/mod.rs:133-142 | removing a peer leaves a current group current if and only if the peer is not in it |
| Router.SetActiveKeepsGroupExactly | data-plane/src/router/mod.rs:208-231 | switching a peer on or off leaves a current group current if and only if its route of lowest metric, if it has one, was so before |
| Router.UpdateMetricKeepsGroupExactly | data-plane/src/router/mod.rs:234-246 | a new metric leaves a current group current if and only if a member keeps its metric, another active route stays above the lowest, and an inactive one does not fall below it |
| Router.GroupCanGoStale | data-plane/src/router/mod.rs:95-142 | two equal routes added and one removed: the group still lists the removed one |
| Router.GroupCanGoStaleInPlace | data-plane/src/router/mod.rs:95-246 | two equal routes added and one switched off or given another metric: the group is not refreshed |
| Router.SetActiveMissesGroupExactly | data-plane/src/router/mod.rs:208-231 | with no group stored and none due, switching a peer leaves one missing if and only if it brings a route of lowest metric to life beside another |
| Router.GroupCanBeMissing | data-plane/src/router/mod.rs:95-231 | two equal routes, one of them activated only after both were added: no group is formed |
| Router.CurrentGroupIsBest | data-plane/src/router/mod.rs:182-199 | every route of a current group of the looked-up network is active, of the longest usable prefix, and of the lowest active metric |
| Router.GroupHoldsExactly | data-plane/src/router/mod.rs:109-129 | a current group holds a route if and only if it is an active route of the network and no other route of it has a lower metric |
| Router.GroupIsLastFormed | data-plane/src/router/mod.rs:109-274 | after any run the stored group is the one formed by the last addition that found several active routes of lowest metric, with its round starting anew, unless a flush came after it |
| Router.PickIsBest | data-plane/src/router/mod.rs:182-199 | so every call of lookup_ecmp on a current group returns a best route |
| Router.RoundRobin | data-plane/src/router/mod.rs:189-196 | as many calls in a row as the group has routes use each route exactly once |
| Sorting.SortSorts | data-plane/src/router/mod.rs:107 | the sort yields a sorted permutation |
| Sorting.SortIsStable | data-plane/src/router/mod.rs:107 | elements of equal key keep their order |
| Kademlia.XorDistance | data-plane/src/decentralized/mod.rs:261-267 | the array filled in the loop is the byte-wise distance |
| Kademlia.DistanceIsXor | data-plane/src/decentralized/mod.rs:261-267 | read as a big-endian number the byte-wise distance is the exclusive or of the two numbers |
| Kademlia.XorBits | data-plane/src/decentralized/mod.rs:261-267 | bit by bit: a bit of the exclusive or is 0 if and only if the two numbers agree on it |
| Kademlia.DistanceIsMetric | data-plane/src/decentralized/mod.rs:261-267 | symmetry, identity and triangle inequality |
| Kademlia.DistanceIsUnidirectional | data-plane/src/decentralized/mod.rs:261-267 | for a point and a distance there is exactly one identifier |
| Kademlia.FindBucketIndex | data-plane/src/decentralized/mod.rs:270-279 | the loop finds the position of the first set bit |
| Kademlia.BucketIsDistanceRange | data-plane/src/decentralized/mod.rs:270-279 | an identifier other than ours falls into bucket i if and only if its distance is in [2^(159-i), 2^(160-i)) |
| Kademlia.OwnIdInBucketZero | data-plane/src/decentralized/mod.rs:270-279 | our own identifier would fall into bucket 0 although its distance is below that bucket's range |
| Kademlia.KademliaDht.constructor | data-plane/src/decentralized/mod.rs:240-258 | 160 empty buckets |
| Kademlia.KademliaDht.AddPeer | data-plane/src/decentralized/mod.rs:282-301 | exactly the peer's bucket changes: refreshed, appended when there is room, else left |
| Kademlia.RunsAreOk | data-plane/src/decentralized/mod.rs:282-301 | in every run of other peers each bucket holds at most 20, without repetition, all of its own distance range |
| Kademlia.BucketHoldsFirstOffered | data-plane/src/decentralized/mod.rs:282-301 | after any run bucket i holds exactly the first min(20, n) of the n identifiers of its range that were offered, in the order of their first offers |
| Kademlia.OfferedInOrder | data-plane/src/decentralized/mod.rs:282-301 | that list of offered identifiers has each identifier of the bucket that was offered, once, earlier offers before later ones |
| Kademlia.PeersAreRemembered | data-plane/src/decentralized/mod.rs:282-300 | in every run a held peer has the address it was first offered with, and was last seen when it was last offered |
| Kademlia.BucketsAreStamped | data-plane/src/decentralized/mod.rs:282-286 | in every run a bucket bears the time of the last offer to it, also when it was full |
| Kademlia.NoIdTwice | data-plane/src/decentralized/mod.rs:282-301 | no identifier occurs twice in the whole table, and each sits in the bucket of its distance |
| Kademlia.KademliaDht.FindClosest | data-plane/src/decentralized/mod.rs:304-320 | all peers, stably sorted by the first 64 bits of their distance, cut to the count |
| Kademlia.ClosestIsClosest | data-plane/src/decentralized/mod.rs:304-320 | min(count, total) distinct peers of the table; the first 64 bits of the exclusive or with the target never fall from one to the next; no omitted peer has fewer in them than a returned one, and one that is closer on all 160 bits has as many |
| Noise.NoiseIKHandshake.BuildInitiatorMessage | data-plane/src/crypto/noise.rs:131-182 | state and message of the first message, or InvalidState outside Init |
| Noise.NoiseIKHandshake.ProcessInitiatorMessage | data-plane/src/crypto/noise.rs:260-321 | state and result for every message: too short, undecryptable, of the wrong size, or accepted; a rejected one of full length has changed key, hash and peer ephemeral |
| Noise.NoiseIKHandshake.BuildResponderMessage | data-plane/src/crypto/noise.rs:327-370 | state, reply and swapped keys |
| Noise.NoiseIKHandshake.ProcessResponderMessage | data-plane/src/crypto/noise.rs:189-230 | state and keys, or InvalidState |
| Noise.NoiseTransportKey.Encrypt | data-plane/src/crypto/noise.rs:404-420 | seals under the current nonce and advances it modulo 2^64 |
| Noise.NoiseTransportKey.Decrypt | data-plane/src/crypto/noise.rs:425-435 | opens exactly packets sealed under this key and the nonce they carry |
| Noise.DecryptsExactly | data-plane/src/crypto/noise.rs:425-435 | a packet opens to a plaintext if and only if it is this plaintext sealed under this key and the very nonce that the packet carries |
| Noise.CallSucceedsExactly | data-plane/src/crypto/noise.rs:131-370 | each call succeeds exactly in its own phase, the readers moreover exactly for a message long enough, and an opening exactly when it is a 32-byte key sealed under the result of es |
| Noise.CallsSucceedInOrder | data-plane/src/crypto/noise.rs:131-370 | whatever is called on one object in whatever order, the calls that succeed are one role's two calls, in their order, and the phase tells how many of them have |
| Noise.FailureLeaves | data-plane/src/crypto/noise.rs:131-370 | a failed call changes nothing, except that an opening read in full has changed ephemeral key, chain and transcript |
| Noise.ErrorsTellWhy | data-plane/src/crypto/noise.rs:131-370 | DecryptionFailed is reported exactly for an opening read in full that does not open to 32 bytes; every other failure is InvalidState |
| Noise.HonestRun | data-plane/src/crypto/noise.rs:131-370 | for all secrets and nonces: both sides finish, the responder learns the initiator's key, keys are crosswise equal, differ by direction and are the two derived from the chain in this order, and chain and transcript are those of the IK pattern |
| Noise.Converse | data-plane/src/crypto/noise.rs:103-435 | two objects run the handshake and one plaintext arrives in each direction |
| Noise.OnlyTheAddresseeAccepts | data-plane/src/crypto/noise.rs:260-309 | an honest opening is accepted if and only if the responder holds the addressed static key, and otherwise fails decryption |
| Noise.AcceptanceNamesAnyone | data-plane/src/crypto/noise.rs:260-321 | an opening is accepted for a key if and only if that key is 32 bytes long and sealed under the result of es, which needs no secret but the ephemeral one |
| Noise.KeysReachExactly | data-plane/src/crypto/noise.rs:260-370 | whoever opened the handshake in the name of v: from published keys and ciphertexts and any set of known secrets with the ephemeral one, a key of the responder can be computed if and only if the set holds the secret of v or both secrets of the responder |
| Noise.OnlyTheNamedFollow | data-plane/src/crypto/noise.rs:260-370 | for any accepted opening whatever, no key of the responder can be computed without the named secret or both of the responder |
| Noise.EqualKeysMeanTheSamePeers | data-plane/src/crypto/noise.rs:131-370 | whatever strings were delivered to either side, their keys agree if and only if the four received points are all of small order or are the true ones up to one common factor; with the responder's true key, and so with any genuine key, exactly when each side has the other's static and ephemeral key in some spelling |
| Noise.FourAgreeExactly | data-plane/src/crypto/noise.rs:131-370 | es, ss, ee and se agree pairwise if and only if the delivered points are aligned in that sense |
| Noise.ZeroKeysAgree | data-plane/src/crypto/noise.rs:131-370 | zero keys throughout: both sides finish with equal keys although neither knows the other |
| Noise.RespelledReplyAgrees | data-plane/src/crypto/noise.rs:189-230 | an honest reply in another spelling gives equal keys and different transcripts |
| Noise.TransportKeysFitTheInitiatorOnly | data-plane/src/crypto/noise.rs:375-385 | transport_keys() repeats the initiator's keys and exchanges the responder's |
| Noise.RetryAfterRejection | data-plane/src/crypto/noise.rs:260-302 | an honest opening is accepted after earlier offers if and only if all of those were too short to be read |
| Noise.TransportRoundTrip | data-plane/src/crypto/noise.rs:404-435 | after an honest run every packet of a stream opens at the other end in any order, and not with the key of the other direction |
| Noise.NoncesAreFresh | data-plane/src/crypto/noise.rs:404-411 | no nonce repeats under a key if and only if at most 2^64 packets are sealed |
| Noise.SplitDiffers | data-plane/src/crypto/noise.rs:473-506 | the two transport keys differ |
| DnsCodec.BuildDnsQuery | data-plane/src/dns/mod.rs:250-293 | the fixed header, the length-prefixed labels between the dots, a zero byte, type A and class IN |
| DnsCodec.QueryReadsBack | data-plane/src/dns/mod.rs:250-293 | the query asks one question with recursion desired and carries no record; type A and class IN stand behind the name; the name reads back as the host name's labels if and only if each has 1 to 63 bytes |
| DnsCodec.NameReadsBackExactly | data-plane/src/dns/mod.rs:277-283 | labels of at most 255 bytes, written with their lengths and a final zero, are read back by the rules of RFC 1035, section 3.1, if and only if each has 1 to 63 bytes |
| DnsCodec.SplitJoin | data-plane/src/dns/mod.rs:278 | splitting at dots loses nothing and leaves no dot in a label |
| DnsCodec.ParseDnsResponse | data-plane/src/dns/mod.rs:296-365 | on every byte string the parser stops, reads inside the buffer, and returns the specified result or error |
| DnsCodec.ResultsExplained | data-plane/src/dns/mod.rs:296-365 | for every byte string: too short exactly below 12 bytes; else the error code if it is not 0, whatever follows; else no answers if the count is 0; else an address that stands in the buffer as the data of a record of type A and class IN, or none |
| DnsCodec.PassLabels | data-plane/src/dns/mod.rs:318-321 | the label loop ends where the length bytes lead |
| DnsCodec.ReadAnswer | data-plane/src/dns/mod.rs:326-361 | one pass of the answer loop |
| DnsCodec.QuestionSkippedExactly | data-plane/src/dns/mod.rs:318-323 | for labels of at most 255 bytes the question is skipped exactly if and only if no label is empty |
| DnsCodec.TrailingDot | data-plane/src/dns/mod.rs:278-282 | a trailing dot produces an empty last label |
| DnsCodec.NameSkippedExactly | data-plane/src/dns/mod.rs:331-340 | a legal answer name is skipped exactly if and only if it does not mix labels with a final pointer |
| DnsCodec.AnswersReadBack | data-plane/src/dns/mod.rs:325-361 | the answer section parses to the first A record of class IN |
| DnsCodec.ResponseReadsBack | data-plane/src/dns/mod.rs:250-365 | a response without error that echoes our question and carries well-formed answers, followed by anything, parses to the first A record or to an error when there is none |
| MeshDnsResolver.MeshDns.Register | data-plane/src/dns/mod.rs:102-120 | stores the record under its name with the mesh suffix added once |
| MeshDnsResolver.MeshDns.Unregister | data-plane/src/dns/mod.rs:123-132 | removes that record, not the cache entry |
| MeshDnsResolver.MeshDns.Resolve | data-plane/src/dns/mod.rs:138-171 | answers from a live cache entry, else from records or upstream, and caches what it fetched for 300 seconds |
| MeshDnsResolver.MeshDns.ClearCache | data-plane/src/dns/mod.rs:232-236 | empties the cache only |
| MeshDnsResolver.FqdnExactly | data-plane/src/dns/mod.rs:102-108 | a record is stored under the name itself if it ends in .mesh, and else under the name with .mesh behind it |
| MeshDnsResolver.RecordIsLastRegistration | data-plane/src/dns/mod.rs:102-132 | after any run the records give an address for a name if and only if it was the last one registered, and the name was not unregistered since |
| MeshDnsResolver.CacheOrigin | data-plane/src/dns/mod.rs:138-171 | every cached answer, for a name of the mesh or not, was fetched by an earlier call, from the records or from upstream, after the last clearing |
| MeshDnsResolver.BoundedStaleness | data-plane/src/dns/mod.rs:102-171 | over all runs every answer was in the records (for a mesh name) or given by upstream (for any other) less than 300 seconds ago and since the last clearing, and None means no record now, or no answer from upstream now |
| MeshDnsResolver.AnswersStand | data-plane/src/dns/mod.rs:138-171 | an answer that was fetched, from the records or from upstream, is repeated for 300 seconds, whatever is registered meanwhile, unless the cache is cleared |
| MeshDnsResolver.StaleOnlyAfterAChange | data-plane/src/dns/mod.rs:102-171 | an answer that differs from the records follows a change of that very name after the fetch |
| MeshDnsResolver.StaleAnswer | data-plane/src/dns/mod.rs:123-171 | an unregistered name is still answered for just under 300 seconds, and not longer |
| RateLimit.RateLimiter.Check | control-plane/app/middleware/rate_limit.py:58-79 | one request of one client: clean, count, refuse or record; other clients are untouched |
| RateLimit.RemainingIsWindow | control-plane/app/middleware/rate_limit.py:66-78 | the counted stamps are exactly the accepted ones of the window; key expiry never loses one |
| RateLimit.DeadlineFollowsLast | control-plane/app/middleware/rate_limit.py:76-78 | a client's key expires two minutes after its last accepted request; refused ones do not prolong it |
| RateLimit.WindowNeverOverfull | control-plane/app/middleware/rate_limit.py:58-79 | with distinct increasing stamps no 60,000 ms window, wherever it starts, holds more accepted requests than the limit |
| RateLimit.RefusedOnlyWhenFull | control-plane/app/middleware/rate_limit.py:66-73 | a request is refused if and only if the window that ends with it already holds the limit |
| RateLimit.SharedMillisecond | control-plane/app/middleware/rate_limit.py:76 | when stamps may repeat, the limit bounds a window over all runs if and only if it is at most 1 |
| RateLimit.CapacityIsExact | control-plane/app/middleware/rate_limit.py:58-79 | with at most k requests per millisecond a bound on the accepted requests of a window holds over all runs if and only if it admits (limit - 1) k + 1, or 60,000 k for limits above 60,000 |
| RateLimit.WindowHoldsCapacity | control-plane/app/middleware/rate_limit.py:58-79 | no window of any run with at most k requests per millisecond exceeds that capacity |
| Gossip.GossipProtocol.Join | data-plane/src/mesh_routing/gossip.rs:126-139 | our own entry is set |
| Gossip.GossipProtocol.AddMember | data-plane/src/mesh_routing/gossip.rs:142-152 | a member is taken when unknown or newer |
| Gossip.GossipProtocol.ProcessMessage | data-plane/src/mesh_routing/gossip.rs:186-245 | state and response for every message |
| Gossip.GossipProtocol.BuildMembershipUpdate | data-plane/src/mesh_routing/gossip.rs:248-252 | lists the members, one entry for each and nothing else |
| Gossip.GossipProtocol.MarkSuspect | data-plane/src/mesh_routing/gossip.rs:255-262 | only that member's state changes |
| Gossip.GossipProtocol.MarkDead | data-plane/src/mesh_routing/gossip.rs:265-272 | only that member's state changes |
| Gossip.RunJoin | data-plane/src/mesh_routing/gossip.rs:142-272 | after any events the incarnation held for another device is the maximum of the initial and all reported ones |
| Gossip.StateIsLastMark | data-plane/src/mesh_routing/gossip.rs:186-272 | as long as nothing newer is reported about a member, its record stands and its state is the last mark it was given: alive by its own acknowledgement, suspect or dead by the detector |
| Gossip.RecordsAreReported | data-plane/src/mesh_routing/gossip.rs:142-272 | after any events the address, metadata and incarnation held for another device are those held at the start or those of one single report |
| Gossip.OwnEntryIsNewestAdded | data-plane/src/mesh_routing/gossip.rs:126-235 | after any events our own entry has the largest incarnation added under our own name since the last join, which sets it to 0; no message changes it |
| Gossip.OnlyTheReportsMatter | data-plane/src/mesh_routing/gossip.rs:142-272 | two histories with the same reports, in whatever order, batches and repetitions, end with the same incarnation |
| Gossip.ExchangedSnapshotsAgree | data-plane/src/mesh_routing/gossip.rs:215-252 | two nodes that exchange snapshots agree on the incarnation of every third device |
| Gossip.ReportsCommuteExactly | data-plane/src/mesh_routing/gossip.rs:228-234 | two reports about one device, metadata included, commute if and only if they are equal, differ in incarnation, or are not newer than what is held |
| Gossip.IncarnationCountsRumours | data-plane/src/mesh_routing/gossip.rs:218-226 | our incarnation counts the reports of our death |
| Gossip.OwnEntryStaysAtZero | data-plane/src/mesh_routing/gossip.rs:126-272 | in every run that adds no member of our own name, the entry we publish for ourselves stays at incarnation 0 |
| Gossip.RumourIsNeverRefuted | data-plane/src/mesh_routing/gossip.rs:186-252 | no series of our snapshots, at whatever points of our runs, changes the entry that another node already holds for us |
| Gossip.RunKeyed | data-plane/src/mesh_routing/gossip.rs:126-235 | members stay stored under their own names |
| Ice.CandidatePriority | data-plane/src/ice/mod.rs:70-81 | every computed priority is below 2^31 |
| Ice.CandidatesOrderByType | data-plane/src/ice/mod.rs:70-81 | priorities order by type, then local preference, without ties |
| Ice.HostsRankFirst | data-plane/src/ice/mod.rs:70-81 | host candidates rank above peer reflexive ones, these above server reflexive ones, these above relayed ones, whatever their preferences |
| Ice.PriorityFields | data-plane/src/ice/mod.rs:70-81 | a priority has the type preference in its top 8 bits, the local preference in the next 16, and 256 - 1 in the last 8 |
| Ice.OverflowsExactly | data-plane/src/ice/mod.rs:344-350 | the pair formula exceeds 64 bits if and only if both inputs are 2^32 - 1 |
| Ice.LexicographicUpTo | data-plane/src/ice/mod.rs:344-350 | pair priorities order by minimum, maximum, side for all inputs up to a bound if and only if the bound is at most 2^31 |
| Ice.MirrorKeepsOrderExactly | data-plane/src/ice/mod.rs:344-350 | two agents order two pairs alike if and only if they differ in (minimum, maximum) or have the same side on top |
| Ice.IceAgent.FormCandidatePairs | data-plane/src/ice/mod.rs:295-338 | the nested loops, the sort and the marking yield the specified check list |
| Ice.IceAgent.SetRemoteCandidates | data-plane/src/ice/mod.rs:271-275 | stores the candidates and forms the list anew |
| Ice.CheckListIsOrdered | data-plane/src/ice/mod.rs:295-338 | every combination of one address family as often as it occurs, by falling priority, exactly the first min(5, n) waiting |
| Ice.CombinedExactly | data-plane/src/ice/mod.rs:295-314 | each combination of a local and a remote candidate stands in the check list as often as the two lists repeat them, if their addresses are of one family, and not at all otherwise |
| Ice.MirroredAgentsAgree | data-plane/src/ice/mod.rs:295-350 | mirrored agents form equally many pairs, mirror each pair, and put pairs of different shared key in the same order; for priorities up to 2^31 these are the pairs that differ in (minimum, maximum) |
| Ice.CheckListsMirror | data-plane/src/ice/mod.rs:295-338 | the check list of one agent, mirrored, holds the pairs of the other, each as often |
| Ice.MirroredAgentsStartAlike | data-plane/src/ice/mod.rs:316-325 | both agents unfreeze mirrored pairs, each as often, when the shared key separates the fifth pair from the sixth |
| Ice.CutIsClear | data-plane/src/ice/mod.rs:316-350 | for priorities up to 2^31 it does when these two pairs differ in (minimum, maximum) |
| Ice.KeysTellApartUpTo | data-plane/src/ice/mod.rs:344-350 | the shared part of the pair priority tells (minimum, maximum) apart for all inputs up to a bound if and only if the bound is at most 2^31 |
| Ipam.IpamService.LoadFromDb | control-plane/app/api/ipam.py:96-133 | the first call takes the rows, a failed query takes none, later calls change nothing |
| Ipam.IpamService.GetNextAvailableIp | control-plane/app/api/ipam.py:136-150 | the cyclic scan and the cursor it leaves |
| Ipam.IpamService.AllocateIp | control-plane/app/api/ipam.py:159-229 | refusals, the existing lease, a new lease, or exhaustion, with the whole new state |
| Ipam.IpamService.ReleaseIp | control-plane/app/api/ipam.py:237-279 | refusals, release of both map entries, or not found |
| Ipam.EveryHostIsTried | control-plane/app/api/ipam.py:142-148 | one round tries every host exactly once |
| Ipam.HostsAreTheBlock | control-plane/app/api/ipam.py:34-35 | the hosts are the addresses of 100.64.0.0/10 but for the first and the last |
| Ipam.FullScan | control-plane/app/api/ipam.py:136-150 | the scan fails if and only if every host is in use, and otherwise returns a free host |
| Ipam.ScanFinds | control-plane/app/api/ipam.py:136-150 | the host returned is the first free one from the cursor on, and the cursor moves behind it |
| Ipam.LoadedRows | control-plane/app/api/ipam.py:106-128 | both maps hold exactly the rows, and the cursor is behind every loaded host |
| Ipam.LoadedLeases | control-plane/app/api/ipam.py:106-120 | each row becomes the lease it describes, with its own time of assignment |
| Ipam.CursorBehindRow | control-plane/app/api/ipam.py:106-128 | loading leaves the cursor at the first host or right behind a loaded one |
| Ipam.LoadedOnce | control-plane/app/api/ipam.py:96-133 | the table is asked once: a failed query changes no lease and no cursor, and later answers are ignored all the same |
| Ipam.RunsAreConsistent | control-plane/app/api/ipam.py:96-279 | in every run the forward and the reverse map are inverse to each other |
| Ipam.NoSharedAddress | control-plane/app/api/ipam.py:96-279 | in every run no two devices hold one address |
| Ipam.AllocationIsSafe | control-plane/app/api/ipam.py:186-206 | a granted allocation never hands out an address in use, keeps every other lease, and reports exhaustion if and only if every host is held |
| Ipam.NewLeaseIsFirstFree | control-plane/app/api/ipam.py:136-206 | a new lease is the first free host from the cursor on, and the cursor moves right behind it |
| Ipam.ExhaustionLeavesNoTrace | control-plane/app/api/ipam.py:136-199 | reporting exhaustion changes nothing: the cursor comes round to the host it started from |
| Ipam.ReleaseIsExact | control-plane/app/api/ipam.py:237-279 | in every run a release frees the device's own address and no other, leaves every other lease and the cursor, and without a lease changes nothing |
| Ipam.RefusalsLeaveNoTrace | control-plane/app/api/ipam.py:159-263 | a refused call tells why and changes nothing, so that every run ends like the run of its granted calls |
| Ipam.AllocateAgainAndRelease | control-plane/app/api/ipam.py:186-264 | asking again returns the same lease and changes nothing; releasing frees exactly that address |
| Connectivity.PeerConnectivity.RecordSuccess | data-plane/src/ice/connectivity.rs:103-128 | the whole new tracker after a success |
| Connectivity.PeerConnectivity.RecordFailure | data-plane/src/ice/connectivity.rs:131-143 | the whole new tracker after a failure |
| Connectivity.EstimateIsBounded | data-plane/src/ice/connectivity.rs:117-125 | over any history the smoothed value lies between the smallest and largest sample and the timeout is at most five times the largest |
| Connectivity.NoOverflow | data-plane/src/ice/connectivity.rs:117-163 | samples below 2^61 keep all intermediate values below 2^64 |
| Connectivity.SteadyConverges | data-plane/src/ice/connectivity.rs:121-125 | a constant time r pulls every value into (r - 8, r] in at most the initial difference of steps and keeps it there |
| Connectivity.ConstantTimeIsLearned | data-plane/src/ice/connectivity.rs:103-128 | the same for the tracker after any history |
| Connectivity.TimeoutIsLearned | data-plane/src/ice/connectivity.rs:103-163 | after any history a constant time r brings the timeout into (r - 16, r + 21] and keeps it there, in a number of steps bounded by what is held |
| Connectivity.TrackerCounts | data-plane/src/ice/connectivity.rs:103-143 | after any history the samples are the last eight times, and the counters are the trailing successes, all checks and all answers |
| Connectivity.StateIsTrailingFailures | data-plane/src/ice/connectivity.rs:103-143 | the state is decided by the trailing failures and by whether a check ever succeeded |
| Connectivity.FailedMeansFiveFailures | data-plane/src/ice/connectivity.rs:131-140 | Failed if and only if at least the last five checks failed |

## Left out

- Failures of distance-vector nodes: `expire_stale_routes`, `remove_peer`, hold-down timers, peer snapshots and time stamps. The reconvergence they aim at does not follow from the code (`WithdrawalIsNotPropagated`).
- Reordering or duplication of distance-vector updates on one link: the proofs assume that updates of one link arrive in order, though any may be delayed or lost.
- Fields that decide nothing: `last_changed`, `added_at`, `last_used`, link metrics, relay elections, statistics and log output.
- Topology.TopologyManager.ShortestPath: hop counts are unbounded naturals, because a u64 count of hops cannot be exhausted by a map held in memory.
- Kademlia.RunsAreOk: does not cover offering our own identifier, which `OwnIdInBucketZero` places in the wrong range; the stored values of `put` and `get` are not modelled.
- DnsCodec.QuestionSkippedExactly: labels of 256 bytes and more, whose length byte wraps, are covered by the builder and the parser but not by the equivalence.
- DvSafety.LoopFree: covers runs whose installations are safe in the sense of `InstallKeepsInvExactly`. That is sufficient, not necessary: after an unsafe one later runs may stay loop free (`UnsafeInstallHeals`) or not (`LateInstallLoops`), and no exact condition over all later runs is given.
- DvRuns.MetricsAreReal: does not cover runs that give an installed network another metric: metrics learned from the old one then cost more than some walk, and only the bound of `ForwardArrives` holds.
- Noise.KeysReachExactly: what is published are constants, all public keys and all sealed public keys; application traffic under other keys is not.
- Noise: byte layouts, which strings spell the same X25519 point, the sign of a point, key sizes other than the distinction of 32-byte strings, zeroization, and failure of the cipher itself.
- RateLimit.RateLimiter.Check: does not cover the in-memory fallback used when Redis fails, nor `dispatch`.
- MeshDnsResolver.MeshDns.Resolve: upstream lookups over UDP are a parameter.
- Ipam: persistence and its failures, HTTP, and the fact that one UUID can be spelled in two ways and then counts as two devices.
- Ice.IceAgent.SetRemoteCandidates: does not model the locks. In the original the call holds the write lock of the remote candidates while it waits for a read lock of the same field, and so does not return; it is the only caller of the pair formation.
- Ice: gathering, STUN checks, nomination, consent timers and role conflicts.
- Lock interleavings: every method is one atomic step.
- Raft, Babel, ACLs, relays, billing, signaling, the NAT tables, the float-valued scoring modules and the simulated accelerators.
