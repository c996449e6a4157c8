# Verified model of LEAP's connection, placement and flow-control core

This project models, in Dafny, the algorithms and protocols by which LEAP connects latency-insensitive modules across platforms, and proves what they are meant to guarantee. One module stands for one component; `dafny verify dfyconfig.toml` checks all of it.

**Scratchpad trees** (`Trees`, `LeastLatency`, `TopologyDP`, `TopologyOptimality`, `TreeBuilder`, `TreeRouting`, `ScratchpadTrees`, `ScratchpadNetworks`, `BalancedTopology`, `BalancedTrees`). The minimum-latency K-ary tree is found by a table over depth, slots and leaves left. The main theorem compares the tree that is built with every K-ary tree over the same clients, of any depth. Along the way: the leaves are congruent to the slots modulo K - 1, so every cell on the chosen path is finite, the tie-break leaves no free slot, and the divisions that give the internal counts are exact. The bottom-up builder then drops nothing, and address bounds route every id to its own leaf. Over all platforms and controllers, every id of the remap table is dispatched by exactly one tree, to the client that the table names. The balanced topology is a tree over all clients exactly up to K^3 of them.

**Regional flow control** (`CreditWord`, `RegionalFlowcontrol`, `RegionalProgress`, `RegionalExtremes`, `RegionalReserve`, `RegionalWords`, `RegionalEndpoints`). A state machine over the atomic steps of any number of channels that share one buffer with a reserve each. Sum of max(local, reserve) <= buffer is the invariant behind the receiver's assertion. Message lengths that can never be stuck on a drained link are characterised exactly. When a feedback message is safe, and for which lengths the 32-bit admission rule is the intended one, is characterised exactly, and the bounds on the words outstanding are shown to be attained. The sender's assertion that its total is positive is not always true; the exact condition is given, and a failing run on every link.

**Per-channel credits** (`ChannelCredits`, `ChannelProgress`, `ChannelEndpoints`). The optimistic fetch-and-add with undo on a wrapping counter, the condition variable, and the bulk return, as one state machine with program counters, a mutex holder and spurious wakeups; one thread acquires, any number free and receive. No wakeup is lost, and the lengths that never sleep forever are characterised exactly.

**Lanes** (`RouterTypes`, `RouterChunks`, `LaneAllocation`, `LaneAllotment`, `LaneAllocator`, `LaneCarving`, `FlowcontrolSlots`, `PlatformPair`). Header widths as a fixed-point iteration, the longest-job-first allocation with growing header reservations, the carving of lanes, and the slots for credit messages, up to the final records and switches of two platforms that are joined in both directions.

**Placement** (`PlacementModel`, `PlacementIlp`). The integer program is data with a meaning; its 0/1 solutions are exactly the legal placements.

**Tagged unions** (`UnionSplits`, `UnionChannel`). Lane widths from member widths, and compressor, channels and decompressor under every interleaving, with order, truncation, back-pressure, absence of deadlock and termination.

**Controllers** (`ControllerBalance`, `ControllerSchedule`, `BalanceBound`, `AddressInterleave`). The greedy assignment is within 4/3 - 1/(3m) of the optimum; interleaving thresholds give each controller its share of the addresses.

`Arith`, `Sums`, `Sorting` and `Wrappers` hold what the modules share.

Conventions. Latencies, activities and loads are exact non-negative integers: finitely many fractions can be scaled to a common unit (`unit` in `LaneAllocation` is that unit, and credit loads are kept in 1/128 of it). Logarithms and ceilings are exact. Python's integer division of counts is kept as such. 32-bit counters wrap explicitly (`Add32`, `Sub32`). Functions state what is computed; methods run the source's loops over local lists, arrays or objects and are proved equal to those functions; lemmas state what follows. Each main operation is also told over its inputs alone, without the functions that compute it (`LaneAllotment.Allotted`, `FlowcontrolSlots.CreditsAllotted`, `LaneCarving.TakenInTurn`, `RouterTypes.Consistent`, `PlacementModel.Allowed`, `ScratchpadNetworks.ServesExactly`, `ControllerSchedule.Scheduled`).

Where the source and its own comments differ, the code is followed. The comment in `umfType.py` that the filler only grows is wrong when the first step is negative (`RouterTypes.FillerFalls`; `RouterChunks.FillerNegative` is such a lane). Its stated aim of the fewest chunks is not always met (`RouterChunks.ChunksNotLeast`). By `RouterChunks.ChunksLeastExactly` it is missed exactly if, for some c >= 1 (c >= 9 without aggressive parameters), maxWidth = 2^c * viaWidth - linkBits - t and viaWidth - linkBits - t >= 1, where t is c, or 1 + c without aggressive parameters. `constructBalancedTreeTopology` gives every level above the two lowest K nodes, so that its tree loses clients from K^3 + 1 on (`BalancedTrees.BuildBalancedTree`). A lane that has neither data nor credit slots has no switch, although `generateCode.py` still names that switch's credit port (`PlatformPair.PortsExistExactly`). The assertion in `pointer-egress.cpp` line 130 fails when everything has been returned (`RegionalProgress.AssertionFails`).

The links of both credit protocols assume what their code does: the buffer size is a power of two, the reserves fit the buffer, and every channel number fits the credit word beside the credits (`Link.Valid`; `CreditWord.RoundTrip` shows that the last is needed).

Assumptions on the environment of the regional protocol, stated as `Disciplined`, and both exact. A message length leaves the 32-bit counters room: less than 2^32 less the buffer size, which are precisely the lengths for which the admission rule means what it says (`RegionalExtremes.AdmitsIntendedExactly`). A credit message is sent only while the sum of max(local, reserve), with its two words, stays within the buffer, which the code itself does not look at; where it does not, the other channels can come to have more outstanding than the buffer holds without breaking any rule (`RegionalExtremes.FeedbackSafeExactly`; `RegionalProgress.FeedbackOverruns` is a run that breaks the receiver's assertion). Each regional receiving channel has one thread; that thread's test in freeCredits is one step, since only the thread itself changes its channel's count. The waiting loop's condition is the guard of the send step, so waiting is not a step of its own.

## Model

| member | source | states |
|---|---|---|
| Trees.CostByLevel | modules/leap/build-support/build-pipelines/stages/lim_memory/remap-scratchpad/scratchpadTree.py:114-171 | the total of latency times depth of a forest is its top level plus the next level taken one deeper, the decomposition that the table relies on |
| Trees.NextLevelWidth | modules/leap/build-support/build-pipelines/stages/lim_memory/remap-scratchpad/scratchpadTree.py:144-168 | below a level with x leaves among its roots come at most k trees for each other root, all k-ary |
| Trees.NextLevelClients | modules/leap/build-support/build-pipelines/stages/lim_memory/remap-scratchpad/scratchpadTree.py:144-168 | one level down, a forest lacks exactly the clients at its roots and has no new ones |
| LeastLatency.LastAreLeast | modules/leap/build-support/build-pipelines/stages/lim_memory/remap-scratchpad/scratchpadTree.py:118-138 | rearrangement: any m distinct clients of a descending list weigh at least as much as its last m |
| LeastLatency.TotalLatencyIsWeight | modules/leap/build-support/build-pipelines/stages/lim_memory/remap-scratchpad/scratchpadTree.py:88-138 | the latency of a forest depends only on which clients its leaves carry |
| TopologyDP.MinimumLastIndex | modules/leap/build-support/build-pipelines/stages/lim_memory/remap-scratchpad/scratchpadTree.py:160-163 | the minimum of the candidates and the largest index at which it occurs |
| TopologyDP.LookupInRange | modules/leap/build-support/build-pipelines/stages/lim_memory/remap-scratchpad/scratchpadTree.py:127-158 | every cell a candidate looks up lies inside the table, whichever of the two width bounds applies |
| TopologyDP.PriceSplit | modules/leap/build-support/build-pipelines/stages/lim_memory/remap-scratchpad/scratchpadTree.py:153-159 | the price of one split: x leaves here, the rest either all one level down or priced by the row below |
| TopologyDP.PriceCandidates | modules/leap/build-support/build-pipelines/stages/lim_memory/remap-scratchpad/scratchpadTree.py:153-159 | all splits of one cell, each with its price by the recurrence |
| TopologyDP.ChooseProfile | modules/leap/build-support/build-pipelines/stages/lim_memory/remap-scratchpad/scratchpadTree.py:163-168 | the recorded leaf counts follow the chosen split |
| TopologyDP.FillCell | modules/leap/build-support/build-pipelines/stages/lim_memory/remap-scratchpad/scratchpadTree.py:146-168 | one inner cell holds the least price over all splits and the leaf counts of the last best split |
| TopologyDP.FillRow | modules/leap/build-support/build-pipelines/stages/lim_memory/remap-scratchpad/scratchpadTree.py:143-169 | one inner row, every cell of it |
| TopologyDP.FillLastRow | modules/leap/build-support/build-pipelines/stages/lim_memory/remap-scratchpad/scratchpadTree.py:133-140 | the base row: finite exactly where the slots hold all leaves |
| TopologyDP.SolveTable | modules/leap/build-support/build-pipelines/stages/lim_memory/remap-scratchpad/scratchpadTree.py:127-171 | the bottom-up table ends with the root cell of the recurrence and its leaf counts per level |
| TopologyOptimality.RootReachable | modules/leap/build-support/build-pipelines/stages/lim_memory/remap-scratchpad/scratchpadTree.py:120-128 | the root cell starts the chosen path with the leaves congruent to the slots modulo K - 1 and enough depth for the surplus |
| TopologyOptimality.ReachableStep | modules/leap/build-support/build-pipelines/stages/lim_memory/remap-scratchpad/scratchpadTree.py:153-168 | every split keeps slots minus leaves a multiple of K - 1 and the surplus within the levels left |
| TopologyOptimality.BestFinite | modules/leap/build-support/build-pipelines/stages/lim_memory/remap-scratchpad/scratchpadTree.py:127-171 | every cell on a path has a finite price, so the infinite entries are never chosen |
| TopologyOptimality.MoreHereNotDearer | modules/leap/build-support/build-pipelines/stages/lim_memory/remap-scratchpad/scratchpadTree.py:160-163 | when a whole node would stay free, keeping one leaf more at the smaller depth costs no more |
| TopologyOptimality.LastStepFull | modules/leap/build-support/build-pipelines/stages/lim_memory/remap-scratchpad/scratchpadTree.py:160-168 | hence the tie-break towards the largest index never leaves a free slot |
| TopologyOptimality.ProfileFull | modules/leap/build-support/build-pipelines/stages/lim_memory/remap-scratchpad/scratchpadTree.py:171-181 | the chosen leaf counts fill every level exactly, the last one included, and hold all leaves |
| TopologyOptimality.BestIsProfileCost | modules/leap/build-support/build-pipelines/stages/lim_memory/remap-scratchpad/scratchpadTree.py:114-171 | the price in the root cell is the cost of placing the clients in descending latency by the chosen leaf counts |
| TopologyOptimality.ForestNotCheaper | modules/leap/build-support/build-pipelines/stages/lim_memory/remap-scratchpad/scratchpadTree.py:114-171 | any k-ary forest that the nodes of a level can carry costs, beyond its own total, at least the cell of that level |
| TopologyOptimality.TreeNotCheaper | modules/leap/build-support/build-pipelines/stages/lim_memory/remap-scratchpad/scratchpadTree.py:114-171 | optimality: every k-ary tree over all clients, of any depth and with any assignment of clients to leaves, costs at least the root cell |
| TreeBuilder.ScratchpadTreeNode.constructor | modules/leap/build-support/build-pipelines/stages/lim_memory/remap-scratchpad/scratchpadModules.py:20-28 | a new node has no children, the range (0, 0) and no bandwidth |
| TreeBuilder.ScratchpadTreeNode.AddChild | modules/leap/build-support/build-pipelines/stages/lim_memory/remap-scratchpad/scratchpadModules.py:29-35 | appends the child; the id range and the bandwidth stay those of all children |
| TreeBuilder.ScratchpadTreeNode.AddChildren | modules/leap/build-support/build-pipelines/stages/lim_memory/remap-scratchpad/scratchpadModules.py:36-38 | the same for a list of children, in order |
| TreeBuilder.TakeGroup | modules/leap/build-support/build-pipelines/stages/lim_memory/remap-scratchpad/scratchpadTree.py:227-235 | a new node takes the remainder of the children first and full groups of K afterwards |
| TreeBuilder.GroupChildren | modules/leap/build-support/build-pipelines/stages/lim_memory/remap-scratchpad/scratchpadTree.py:226-236 | grouping drops no child and keeps their order when the new nodes have room, and otherwise drops children from the end; with fewer than K free places the first node leaves them free and all others are full |
| ScratchpadTrees.CountInternals | modules/leap/build-support/build-pipelines/stages/lim_memory/remap-scratchpad/scratchpadTree.py:172-178 | the internal counts are those of the filled levels: every floor division by K is exact |
| ScratchpadTrees.ConstructTreeTopologyUsingDP | modules/leap/build-support/build-pipelines/stages/lim_memory/remap-scratchpad/scratchpadTree.py:114-183 | the clients are a permutation in descending latency, every level is full but for the removed dummies on the last, and no k-ary tree over the clients costs less |
| ScratchpadTrees.ConstructScratchpadTreeTopology | modules/leap/build-support/build-pipelines/stages/lim_memory/remap-scratchpad/scratchpadTree.py:10-23 | the flat special case up to K clients and the table beyond, both of least cost |
| ScratchpadTrees.LevelHolds | modules/leap/build-support/build-pipelines/stages/lim_memory/remap-scratchpad/scratchpadTree.py:225-240 | one turn of the bottom-up loop puts this level's clients in front of the old forest, with every client where its level count says |
| ScratchpadTrees.BuildTree | modules/leap/build-support/build-pipelines/stages/lim_memory/remap-scratchpad/scratchpadTree.py:211-242 | with counts that fit, every client is exactly one leaf at the depth of its count; with exact counts every inner node has 2 to K children; with any counts no level exceeds its counts, no node has more than K children, and every leaf weighs its client's bandwidth, at least 1 |
| ScratchpadTrees.BuildScratchpadTree | modules/leap/build-support/build-pipelines/stages/lim_memory/remap-scratchpad/scratchpadTree.py:195-242 | the whole construction: permutation of the clients, each id and client at exactly one leaf, least cost among all k-ary trees, root with K children and inner nodes with 2 to K, every id routed to its leaf and no other id to any |
| ScratchpadTrees.ProfileCostPadded | modules/leap/build-support/build-pipelines/stages/lim_memory/remap-scratchpad/scratchpadTree.py:120-181 | taking the dummies off the last level changes no cost |
| ScratchpadTrees.BandwidthAddsUp | modules/leap/build-support/build-pipelines/stages/lim_memory/remap-scratchpad/scratchpadTree.py:211-242 | in a built tree the bandwidth of every node is the sum over the clients below it of their bandwidth, each at least 1 |
| BalancedTopology.GrowsExactly | modules/leap/build-support/build-pipelines/stages/lim_memory/remap-scratchpad/scratchpadTree.py:102-110 | another turn of the balanced loop asks for more internal nodes exactly while there are too few, and never for too many |
| BalancedTopology.LowestLevels | modules/leap/build-support/build-pipelines/stages/lim_memory/remap-scratchpad/scratchpadTree.py:98-112 | the balanced loop ends with ceil((total - K^(depth-1)) / (K-1)) internal nodes: the leaves add up, the upper level is full and the lower one has room |
| BalancedTrees.ConstructBalancedTreeTopology | modules/leap/build-support/build-pipelines/stages/lim_memory/remap-scratchpad/scratchpadTree.py:93-112 | the clients in descending latency, leaves on the two lowest levels only, and K nodes on every level above them |
| BalancedTrees.RoomForCube | modules/leap/build-support/build-pipelines/stages/lim_memory/remap-scratchpad/scratchpadTree.py:98-240 | with K nodes on every level above the two lowest, the builder's tree has room for K^3 clients, however deep it is |
| BalancedTrees.BuildBalancedTree | modules/leap/build-support/build-pipelines/stages/lim_memory/remap-scratchpad/scratchpadTree.py:93-242 | the balanced tree has every client, each once and in order, exactly if there are at most K^3; with more the builder drops clients and keeps at most K^3 |
| TreeRouting.TreeInterval | modules/leap/build-support/build-pipelines/stages/lim_memory/remap-scratchpad/scratchpadModules.py:29-35 | the id range of an ordered tree is exactly the interval of its leaves' ids |
| TreeRouting.BoundsAreOffsets | modules/leap/build-support/build-pipelines/stages/lim_memory/remap-scratchpad/remapScratchpad.py:424-426 | the address bounds of a node are its children's first ids, closed by one past its last id |
| TreeRouting.OneChild | modules/leap/build-support/build-pipelines/stages/lim_memory/remap-scratchpad/remapScratchpad.py:424-426 | sibling intervals are consecutive: an id of the node selects exactly one child, the one that holds it |
| TreeRouting.RouteFinds | modules/leap/build-support/build-pipelines/stages/lim_memory/remap-scratchpad/remapScratchpad.py:424-426 | routing by address bounds takes every id to exactly the leaf that has it |
| TreeRouting.RouteRejects | modules/leap/build-support/build-pipelines/stages/lim_memory/remap-scratchpad/remapScratchpad.py:424-426 | an id outside the root's interval reaches no leaf |
| ScratchpadNetworks.BuildScratchpadTrees | modules/leap/build-support/build-pipelines/stages/lim_memory/remap-scratchpad/scratchpadTree.py:188-247 | one site per controller in order, each with the best tree over exactly the scratchpads whose controllerIdx holds it, with their own name, latency, bandwidth there and shared mark; ids go on from 1 without gaps, and the remap table has exactly these ids with their clients' names |
| ScratchpadNetworks.OrderServes | modules/leap/build-support/build-pipelines/stages/lim_memory/remap-scratchpad/scratchpadTree.py:196-205 | each scratchpad that a controller serves has exactly one client in its tree, with its data, and no other scratchpad has any |
| ScratchpadNetworks.Remap | modules/leap/build-support/build-pipelines/stages/lim_memory/remap-scratchpad/scratchpadTree.py:201-208 | one controller's clients get the next ids in sorted order and nothing else in the table changes |
| ScratchpadNetworks.IdReachesOneClient | modules/leap/build-support/build-pipelines/stages/lim_memory/remap-scratchpad/scratchpadTree.py:188-247 | every id of the remap table is dispatched by exactly one of all the controllers' trees, and reaches there the leaf of the client that the table names; no tree dispatches any other id |
| CreditWord.MaskIsRemainder | modules/leap/virtual-platform/virtual-devices/devices/multifpga_router_service/flowcontrol/pointer-egress.cpp:65-67 | masking with 2^e - 1 is the remainder modulo 2^e |
| CreditWord.RoundTrip | modules/leap/virtual-platform/virtual-devices/devices/multifpga_router_service/flowcontrol/pointer-ingress.cpp:86-87 | the credit word is read back as written exactly if the credits are below twice the buffer size and the channel number fits above them in 32 bits |
| RegionalFlowcontrol.StepKeeps | modules/leap/virtual-platform/virtual-devices/devices/multifpga_router_service/flowcontrol/pointer-egress.cpp:90-195 | every step of every thread keeps the invariant, feedback included while there is room for it: reserves cover the outstanding words, both regional counters are sums of their channels, and each channel's credits are conserved |
| RegionalFlowcontrol.EmitKeeps | modules/leap/virtual-platform/virtual-devices/devices/multifpga_router_service/flowcontrol/pointer-egress.cpp:147-166 | an admitted message keeps the sum of max(local, reserve) within the buffer, by the regional or by the local half of the rule |
| RegionalFlowcontrol.RoomKeeps | modules/leap/virtual-platform/virtual-devices/devices/multifpga_router_service/flowcontrol/pointer-egress.cpp:164-195 | a message of any kind, admitted or feedback, keeps the invariant if the reserves and the outstanding words have room for it |
| RegionalFlowcontrol.CountRegionKeeps | modules/leap/virtual-platform/virtual-devices/devices/multifpga_router_service/flowcontrol/pointer-ingress.cpp:99-110 | counting a message in the region after its channel keeps the invariant |
| RegionalFlowcontrol.PushedWord | modules/leap/virtual-platform/virtual-devices/devices/multifpga_router_service/flowcontrol/pointer-ingress.cpp:85-93 | what a thread has swapped out always fits the credit word |
| RegionalFlowcontrol.CreditKeeps | modules/leap/virtual-platform/virtual-devices/devices/multifpga_router_service/flowcontrol/pointer-egress.cpp:53-106 | a credit message returns no more than its channel has outstanding |
| RegionalFlowcontrol.RunKeeps | modules/leap/virtual-platform/virtual-devices/devices/multifpga_router_service/flowcontrol/pointer-egress.cpp:90-195 | the invariant holds at the end of every run of any number of channels in which feedback has room |
| RegionalFlowcontrol.Safety | modules/leap/virtual-platform/virtual-devices/devices/multifpga_router_service/flowcontrol/pointer-ingress.cpp:99-110 | in every reachable state both regional totals are within the buffer (the receiver's assertion), no counter has wrapped, and a channel's outstanding count is what is in flight, held, in hand and on its way back |
| RegionalFlowcontrol.DrainedAdmits | modules/leap/virtual-platform/virtual-devices/devices/multifpga_router_service/flowcontrol/pointer-egress.cpp:147-149 | once the link is drained, a message that fits beside the most that idle channels keep, or beside its own channel's share in the reserve, is admitted |
| RegionalProgress.DrainedRefuses | modules/leap/virtual-platform/virtual-devices/devices/multifpga_router_service/flowcontrol/pointer-egress.cpp:147-149 | any other message is refused in some reachable drained state |
| RegionalProgress.DrainedAdmitsExactly | modules/leap/virtual-platform/virtual-devices/devices/multifpga_router_service/flowcontrol/pointer-ingress.cpp:29-95 | exactly the message lengths for which a drained link never leaves a sender waiting |
| RegionalProgress.AssertionHoldsExactly | modules/leap/virtual-platform/virtual-devices/devices/multifpga_router_service/flowcontrol/pointer-egress.cpp:130-131 | the sender's assertion that its total is positive holds after a credit message exactly if some channel still has words in flight, held, in hand or on their way back |
| RegionalProgress.AssertionFails | modules/leap/virtual-platform/virtual-devices/devices/multifpga_router_service/flowcontrol/pointer-egress.cpp:130-131 | on every link with a channel a reachable state makes it fail: one message goes out and all of its credits come back |
| RegionalWords.WordsNotEmpty | modules/leap/virtual-platform/virtual-devices/devices/multifpga_router_service/flowcontrol/pointer-ingress.cpp:73-95 | every credit message under way returns at least one word |
| RegionalProgress.FeedbackOverruns | modules/leap/virtual-platform/virtual-devices/devices/multifpga_router_service/flowcontrol/pointer-egress.cpp:179-195 | a run in which credit messages sent without a look at the room break the receiver's assertion |
| RegionalExtremes.FeedbackKeepsExactly | modules/leap/virtual-platform/virtual-devices/devices/multifpga_router_service/flowcontrol/pointer-egress.cpp:179-195 | a feedback message keeps the invariant exactly if the sum of max(local, reserve) stays within the buffer with its two words |
| RegionalExtremes.NoRoomOverruns | modules/leap/virtual-platform/virtual-devices/devices/multifpga_router_service/flowcontrol/pointer-egress.cpp:179-195 | if it does not, the channels can go on by admitted messages within their own reserves until more is outstanding than the buffer holds |
| RegionalExtremes.FeedbackSafeExactly | modules/leap/virtual-platform/virtual-devices/devices/multifpga_router_service/flowcontrol/pointer-egress.cpp:147-195 | hence every disciplined continuation keeps what is outstanding within the buffer exactly if there is room for the feedback message |
| RegionalExtremes.TotalReached | modules/leap/virtual-platform/virtual-devices/devices/multifpga_router_service/flowcontrol/pointer-egress.cpp:147-195 | every number of outstanding words up to the buffer size is reached, so the bound of Safety cannot be lowered |
| RegionalExtremes.LongMessageWraps | modules/leap/virtual-platform/virtual-devices/devices/multifpga_router_service/flowcontrol/pointer-egress.cpp:148-149 | a length that can wrap the 32-bit sum is admitted, without room, in a reachable state |
| RegionalExtremes.AdmitsIntendedExactly | modules/leap/virtual-platform/virtual-devices/devices/multifpga_router_service/flowcontrol/pointer-egress.cpp:148-149 | the 32-bit rule admits what the unbounded rule admits in every reachable state exactly for the lengths below 2^32 less the buffer size |
| RegionalReserve.ReserveBound | modules/leap/virtual-platform/virtual-devices/devices/multifpga_router_service/flowcontrol/pointer-egress.cpp:147-195 | while feedback stays within its own channel's reserve, at most the buffer less the smaller of one reserve and the shared words is outstanding |
| RegionalReserve.ReserveBoundReached | modules/leap/virtual-platform/virtual-devices/devices/multifpga_router_service/flowcontrol/pointer-egress.cpp:147-195 | a run that attains this bound, on every link |
| RegionalEndpoints.SenderRegion.Init | modules/leap/virtual-platform/virtual-devices/devices/multifpga_router_service/flowcontrol/pointer-egress.cpp:39-50 | the sender's threshold is the buffer less all reserves, which is the initial state of the protocol |
| RegionalEndpoints.SenderRegion.PushUMF | modules/leap/virtual-platform/virtual-devices/devices/multifpga_router_service/flowcontrol/pointer-egress.cpp:53-86 | a credit message is counted as two words on the reverse link, its word is the credit step of this link, and the reverse link's return, if its test asks for one, is a feedback step on this link; the assertion's outcome is returned |
| RegionalEndpoints.SenderChannel.FreeCredits | modules/leap/virtual-platform/virtual-devices/devices/multifpga_router_service/flowcontrol/pointer-egress.cpp:90-131 | both counters go down by the credits, modulo 2^32, and the result says whether the assertion on the region's total holds |
| RegionalEndpoints.SenderChannel.TryAcquireCredits | modules/leap/virtual-platform/virtual-devices/devices/multifpga_router_service/flowcontrol/pointer-egress.cpp:144-166 | one look under the mutex takes the credits exactly if the message is admitted, and is the send step; otherwise nothing changes |
| RegionalEndpoints.SenderChannel.AcquireCreditsFC | modules/leap/virtual-platform/virtual-devices/devices/multifpga_router_service/flowcontrol/pointer-egress.cpp:179-186 | taking feedback credits is the unguarded step |
| RegionalEndpoints.ReceiverRegion.constructor | modules/leap/virtual-platform/virtual-devices/devices/multifpga_router_service/flowcontrol/pointer-ingress.cpp:19-40 | the receiver starts empty with the smaller of half the buffer and what is not reserved |
| RegionalEndpoints.ReceiverRegion.AcquireRegionalCredits | modules/leap/virtual-platform/virtual-devices/devices/multifpga_router_service/flowcontrol/pointer-ingress-regional.h:39-39 | adds modulo 2^32 and returns the value before |
| RegionalEndpoints.ReceiverRegion.FreeRegionalCredits | modules/leap/virtual-platform/virtual-devices/devices/multifpga_router_service/flowcontrol/pointer-ingress.cpp:46-50 | subtracts modulo 2^32 and returns the value before, and the credit message to come is a feedback step on the reverse link |
| RegionalEndpoints.ReceiverChannel.AcquireCredits | modules/leap/virtual-platform/virtual-devices/devices/multifpga_router_service/flowcontrol/pointer-ingress.cpp:99-111 | counting a message is the two counting steps, and its assertion holds afterwards |
| RegionalEndpoints.ReceiverChannel.FreeCredits | modules/leap/virtual-platform/virtual-devices/devices/multifpga_router_service/flowcontrol/pointer-ingress.cpp:65-97 | a credit word goes out exactly if the decision step says so; then it is the word of the whole count, and the reverse link counts a feedback message |
| ChannelCredits.StepKeeps | modules/leap/virtual-platform/virtual-devices/devices/multifpga_router_service/flowcontrol/flowcontrol-egress.h:122-217 | every atomic step of the acquiring, freeing and receiving threads keeps the invariant |
| ChannelCredits.RunKeeps | modules/leap/virtual-platform/virtual-devices/devices/multifpga_router_service/flowcontrol/flowcontrol-egress.h:122-217 | the invariant holds at the end of every run |
| ChannelCredits.CounterExact | modules/leap/virtual-platform/virtual-devices/devices/multifpga_router_service/flowcontrol/flowcontrol-egress.h:132-176 | the 32-bit counter is the buffer size less what is outstanding less what an undo will add back, modulo 2^32, and outstanding words never exceed the buffer |
| ChannelCredits.WordsExact | modules/leap/virtual-platform/virtual-devices/devices/multifpga_router_service/flowcontrol/flowcontrol-ingress.h:127-145 | returned credits are below twice the buffer size and every credit word is read back unchanged |
| ChannelCredits.NoLostWakeup | modules/leap/virtual-platform/virtual-devices/devices/multifpga_router_service/flowcontrol/flowcontrol-egress.h:132-210 | a sleeping sender that has enough credit has a notification still to come |
| ChannelCredits.DrainedHasCredit | modules/leap/virtual-platform/virtual-devices/devices/multifpga_router_service/flowcontrol/flowcontrol-ingress.h:120-147 | with nothing under way the receiver keeps at most half the buffer, and a sleeping sender wants more than the rest |
| ChannelProgress.DrainedSleeps | modules/leap/virtual-platform/virtual-devices/devices/multifpga_router_service/flowcontrol/flowcontrol-egress.h:172-210 | a longer message can spin 2500 times, sleep, and have nothing left to wake it |
| ChannelProgress.DrainedNeverSleepsExactly | modules/leap/virtual-platform/virtual-devices/devices/multifpga_router_service/flowcontrol/flowcontrol-egress.h:172-210 | exactly the lengths up to the buffer size less its half never leave a sender asleep on a drained channel |
| ChannelProgress.AttemptsCounted | modules/leap/virtual-platform/virtual-devices/devices/multifpga_router_service/flowcontrol/flowcontrol-egress.h:172-193 | whatever the other threads do, the acquiring thread goes to the mutex after exactly 2500 attempts in vain and has its credits after no more |
| ChannelEndpoints.OutChannel.constructor | modules/leap/virtual-platform/virtual-devices/devices/multifpga_router_service/flowcontrol/flowcontrol-egress.h:106-117 | the counter starts with the whole buffer |
| ChannelEndpoints.OutChannel.FreeCredits | modules/leap/virtual-platform/virtual-devices/devices/multifpga_router_service/flowcontrol/flowcontrol-egress.h:122-164 | the credits are added modulo 2^32, except on a dummy channel |
| ChannelEndpoints.OutChannel.SpinForCredits | modules/leap/virtual-platform/virtual-devices/devices/multifpga_router_service/flowcontrol/flowcontrol-egress.h:171-191 | without interference the spin loop takes the credits at once or leaves the counter as it was |
| ChannelEndpoints.PushUMF | modules/leap/virtual-platform/virtual-devices/devices/multifpga_router_service/flowcontrol/flowcontrol-egress.cpp:24-53 | decoding a credit word frees the credits of the channel that it names |
| ChannelEndpoints.InChannel.AcquireCredits | modules/leap/virtual-platform/virtual-devices/devices/multifpga_router_service/flowcontrol/flowcontrol-ingress.h:151-153 | received words are counted modulo 2^32 |
| ChannelEndpoints.InChannel.FreeCredits | modules/leap/virtual-platform/virtual-devices/devices/multifpga_router_service/flowcontrol/flowcontrol-ingress.h:120-147 | a credit word of the whole count goes out exactly above half the buffer, and the count is reset |
| RouterTypes.NextMonotone | modules/leap/build-support/build-pipelines/stages/lim_connect/common/umfType.py:101-111 | a wider filler never needs more chunk bits, so the iteration is monotone |
| RouterTypes.GenerateRouterTypes | modules/leap/build-support/build-pipelines/stages/lim_connect/common/umfType.py:82-118 | the loop ends for every positive via width, its result passes the width check and is a header that fits the lane: link and chunk numbers of least width, the chunk number for the words beside the final filler, padded to ten bits with it |
| RouterTypes.DefaultRouterType | modules/leap/build-support/build-pipelines/stages/lim_connect/common/umfType.py:71-80 | every field is the given one, and the filler is the rest of the via width |
| RouterTypes.FieldsWideEnough | modules/leap/build-support/build-pipelines/stages/lim_connect/common/umfType.py:84-118 | the fields add up to the via width, every link number fits its field, and so does the number of chunks that the widest message needs beside the final filler |
| RouterTypes.NearestFixedPoint | modules/leap/build-support/build-pipelines/stages/lim_connect/common/umfType.py:93-113 | the loop ends at the fixed point nearest to 0 on the side to which its first step goes |
| RouterTypes.ConsistentIsFixed | modules/leap/build-support/build-pipelines/stages/lim_connect/common/umfType.py:93-113 | every header that fits the lane is a fixed point of the loop |
| RouterTypes.NearestConsistent | modules/leap/build-support/build-pipelines/stages/lim_connect/common/umfType.py:93-113 | among all headers that fit, the loop ends with the one whose filler is nearest to 0, on either side |
| RouterTypes.FillerFalls | modules/leap/build-support/build-pipelines/stages/lim_connect/common/umfType.py:93-113 | the filler falls instead of rising when the fields are wider than the via, and is below the via width otherwise |
| RouterTypes.FillerFits | modules/leap/build-support/build-pipelines/stages/lim_connect/common/umfType.py:93-113 | the filler is not negative exactly if the other fields fit beside an empty one |
| RouterChunks.FillerNegative | modules/leap/build-support/build-pipelines/stages/lim_connect/common/umfType.py:84-118 | a lane of 13 bits with 16 links: the first step and the filler are -1, and the header passes the width check |
| RouterChunks.NeighbouringFixedPoints | modules/leap/build-support/build-pipelines/stages/lim_connect/common/umfType.py:93-113 | two consistent headers with different chunk bits have neighbouring fillers, and with the upper one the widest message leaves exactly 2^c - 1 full words |
| RouterChunks.ChunksNotLeast | modules/leap/build-support/build-pipelines/stages/lim_connect/common/umfType.py:56-113 | one link of 198 bits on a lane of 100: the loop ends with two chunk bits although one is consistent |
| RouterChunks.ChunksLeastExactly | modules/leap/build-support/build-pipelines/stages/lim_connect/common/umfType.py:56-113 | the number of chunk bits is least among all consistent headers except exactly where the widest message ends at the end of word 2^c with the shorter header, and the filler beside the longer one is not negative |
| LaneAllocation.Choice | modules/leap/build-support/build-pipelines/stages/lim_connect/analyze-network/analyzeNetwork.py:237-255 | the chosen lane is the first one whose load with the link is least |
| LaneAllocation.LoadIsSum | modules/leap/build-support/build-pipelines/stages/lim_connect/analyze-network/analyzeNetwork.py:240-257 | a lane's load is the sum of its links' activity times ceil((bitwidth + header) / width) |
| LaneAllocation.GreedyLoad | modules/leap/build-support/build-pipelines/stages/lim_connect/analyze-network/analyzeNetwork.py:226-274 | no lane's load exceeds the sum over all links of the cheapest lane's cost |
| LaneAllocation.CheapestIsLeast | modules/leap/build-support/build-pipelines/stages/lim_connect/analyze-network/analyzeNetwork.py:226-274 | every assignment pays at least the cheapest cost of every link |
| LaneAllocation.GreedyAgainstAny | modules/leap/build-support/build-pipelines/stages/lim_connect/analyze-network/analyzeNetwork.py:226-274 | the maximum load is at most the number of lanes times that of any other assignment under the same headers |
| LaneAllocation.RunFillsSlots | modules/leap/build-support/build-pipelines/stages/lim_connect/analyze-network/analyzeNetwork.py:263-274 | every link has one lane and one slot, and each lane's slots are 0, 1, ... without gaps |
| LaneAllocation.SlackFalls | modules/leap/build-support/build-pipelines/stages/lim_connect/analyze-network/analyzeNetwork.py:276-301 | when some reservation is too small, growing the reservations leaves them less to grow |
| LaneAllocation.Allocate | modules/leap/build-support/build-pipelines/stages/lim_connect/analyze-network/analyzeNetwork.py:213-301 | the header recursion ends; on return every reservation covers its lane's real header and none has shrunk |
| LaneAllocation.AllocationSound | modules/leap/build-support/build-pipelines/stages/lim_connect/analyze-network/analyzeNetwork.py:213-301 | the returned allocation: covered headers, exact slots and exact loads under the final reservations |
| LaneAllotment.PriorityOrder | modules/leap/build-support/build-pipelines/stages/lim_connect/analyze-network/analyzeNetwork.py:218-218 | sorting rearranges the given links by descending 2048 * activity - bitwidth, in the given order among equals |
| LaneAllotment.AllocateAllots | modules/leap/build-support/build-pipelines/stages/lim_connect/analyze-network/analyzeNetwork.py:213-301 | the allocation told over the given links: order, lanes, slots, loads by activity times words, widest links and sufficient headers |
| LaneAllotment.HeaderNeeded | modules/leap/build-support/build-pipelines/stages/lim_connect/analyze-network/analyzeNetwork.py:276-289 | a lane's header is all but the filler of the header that fits the lane and its links, the one with the filler nearest to 0 |
| LaneAllotment.AllocationClimbs | modules/leap/build-support/build-pipelines/stages/lim_connect/analyze-network/analyzeNetwork.py:284-301 | from pass to pass every reservation becomes the header its lane needed there, if that is more, and only passes with too small a reservation are repeated |
| LaneAllocator.Copy | modules/leap/build-support/build-pipelines/stages/lim_connect/analyze-network/analyzeNetwork.py:223-223 | the rollback copy has fresh lanes with equal values |
| LaneAllocator.ChooseLane | modules/leap/build-support/build-pipelines/stages/lim_connect/analyze-network/analyzeNetwork.py:237-255 | the inner loop finds the chosen lane and its load |
| LaneAllocator.PlaceLink | modules/leap/build-support/build-pipelines/stages/lim_connect/analyze-network/analyzeNetwork.py:257-274 | the chosen lane takes the link's load and gives its next slot; no other lane changes |
| LaneAllocator.AllocatePass | modules/leap/build-support/build-pipelines/stages/lim_connect/analyze-network/analyzeNetwork.py:226-274 | one pass over the sorted links is the specified pass |
| LaneAllocator.CheckHeaders | modules/leap/build-support/build-pipelines/stages/lim_connect/analyze-network/analyzeNetwork.py:276-289 | recursion is needed exactly if some reservation is too small, and the next reservations are the pointwise maxima |
| LaneAllocator.AllocateLJFWithHeaders | modules/leap/build-support/build-pipelines/stages/lim_connect/analyze-network/analyzeNetwork.py:213-301 | the lanes, assignments and widest links that the recursion returns are an allotment of the given links: each link once, in descending 2048 * activity - bitwidth, to the first lane whose load would be least, at its next slot, with a header that covers what the lane needs; reservations never shrink |
| LaneAllocator.AllocateLJF | modules/leap/build-support/build-pipelines/stages/lim_connect/analyze-network/analyzeNetwork.py:210-211 | the same from empty lanes and one reserved bit each |
| LaneCarving.CarveLanes | modules/leap/build-support/build-pipelines/stages/lim_connect/analyze-network/analyzeNetwork.py:109-163 | each lane but the base has the width of its link and 12 bits, the link being the first without a lane for which the base lane is wider than the link and 26 bits; the base lane has the rest less 13 bits more than each link and one for itself; carving stops when no link fits |
| LaneCarving.CarveBalanced | modules/leap/build-support/build-pipelines/stages/lim_connect/analyze-network/analyzeNetwork.py:120-157 | with several lanes their widths and one valid bit each are the whole connection, the base lane keeps more than a header and its bit, and no other lane has less than a header |
| LaneCarving.LanesUseLinks | modules/leap/build-support/build-pipelines/stages/lim_connect/analyze-network/analyzeNetwork.py:102-157 | each carved lane takes one link that had none, in this attempt and in those before it |
| LaneCarving.GenerateViaLJF | modules/leap/build-support/build-pipelines/stages/lim_connect/analyze-network/analyzeNetwork.py:103-203 | the attempts with one lane more each time, every one carved from the links not used before and allotted by name, until too few links fit; kept are the lanes of the first attempt whose maximum load is least |
| FlowcontrolSlots.CreditLane | modules/leap/build-support/build-pipelines/stages/lim_connect/analyze-network/analyzeNetwork.py:504-521 | credits go to the first outgoing lane whose load with one more credit link is least |
| FlowcontrolSlots.AssignFlowcontrol | modules/leap/build-support/build-pipelines/stages/lim_connect/analyze-network/analyzeNetwork.py:495-531 | each incoming lane gets the next slot of the first outgoing lane whose load would be least with it, a credit link weighing the data load by the words of 15 bits; slots and loads are those of data and credits |
| FlowcontrolSlots.ServeSlots | modules/leap/build-support/build-pipelines/stages/lim_connect/analyze-network/analyzeNetwork.py:525-531 | credit slots continue the data slots of their lane without gaps or repetition |
| FlowcontrolSlots.CreditSlotsAddUp | modules/leap/build-support/build-pipelines/stages/lim_connect/analyze-network/analyzeNetwork.py:525-531 | the lanes have together as many credit slots as the other direction has lanes |
| FlowcontrolSlots.EveryLaneServesExactly | modules/leap/build-support/build-pipelines/stages/lim_connect/analyze-network/analyzeNetwork.py:495-531 | serving the incoming lanes leaves every lane with a slot exactly if no lane but the first without load lacks data links |
| FlowcontrolSlots.FillEgressVectors | modules/leap/build-support/build-pipelines/stages/lim_connect/generate-code/generateCode.py:203-294 | every slot of every egress vector is filled exactly once, with the connection or the incoming lane that was given it |
| FlowcontrolSlots.CreditsMeet | modules/leap/build-support/build-pipelines/stages/lim_connect/generate-code/generateCode.py:277-312 | the port at which a lane listens for its credits is the one port into which the other end's switch puts them |
| PlatformPair.DirectionSound | modules/leap/build-support/build-pipelines/stages/lim_connect/analyze-network/analyzeNetwork.py:210-301 | one direction's allocation is an allotment of the given links: each once, in order of priority, under its own two names, with gapless slots and covered headers |
| PlatformPair.PortsExistExactly | modules/leap/build-support/build-pipelines/stages/lim_connect/generate-code/generateCode.py:197-286 | a switch is instantiated only for a lane with a slot but its credit port is always named: all named ports exist exactly if no lane but the first without load lacks data links |
| PlatformPair.SpareLaneMissing | modules/leap/build-support/build-pipelines/stages/lim_connect/generate-code/generateCode.py:197-286 | two lanes and no connection: a switch that is named is missing |
| PlatformPair.ConnectPair | modules/leap/build-support/build-pipelines/stages/lim_connect/analyze-network/analyzeNetwork.py:395-590 | from the given links and widths of both directions to the final records and switches: both allotments; at each end every slot carries exactly the connection that was given it or the credits for the one lane of the other end whose record names this slot; widths, slots and loads of the records are those of data and credits; all named switches exist exactly if the other end has no spare lanes |
| PlacementModel.ChooseColors | modules/leap/build-support/build-pipelines/stages/lim_connect/map/placeModules.py:17-104 | a module's choices are exactly its given platform, or else the CPUs for software and the FPGAs and simulated FPGAs for hardware, in the platforms' order |
| PlacementModel.WriteModuleVars | modules/leap/build-support/build-pipelines/stages/lim_connect/map/placeModules.py:91-104 | one variable per choice, fixed for given placements |
| PlacementModel.WriteEdgeVars | modules/leap/build-support/build-pipelines/stages/lim_connect/map/placeModules.py:106-147 | one variable per channel and pair of choices, with activity times path length in the objective |
| PlacementModel.Generate | modules/leap/build-support/build-pipelines/stages/lim_connect/map/placeModules.py:67-221 | the generator writes exactly the specified variables, objective and rows |
| PlacementIlp.SolvesMeans | modules/leap/build-support/build-pipelines/stages/lim_connect/map/placeModules.py:149-219 | the rows as a list mean what they say module by module, channel by channel and platform by platform |
| PlacementIlp.DeclsExactly | modules/leap/build-support/build-pipelines/stages/lim_connect/map/placeModules.py:91-126 | exactly the variables of allowed platforms and of allowed pairs are declared, fixed for given placements and for the only pair |
| PlacementIlp.PairForced | modules/leap/build-support/build-pipelines/stages/lim_connect/map/placeModules.py:158-182 | the rows of both ends force an edge variable to be the product of its two module choices |
| PlacementIlp.SolutionIsPlacement | modules/leap/build-support/build-pipelines/stages/lim_connect/map/placeModules.py:149-219 | every 0/1 solution is a placement that respects given placements, compatibility and budgets |
| PlacementIlp.PlacementIsSolution | modules/leap/build-support/build-pipelines/stages/lim_connect/map/placeModules.py:149-219 | every such placement is a solution |
| PlacementIlp.SolutionsArePlacements | modules/leap/build-support/build-pipelines/stages/lim_connect/map/placeModules.py:91-219 | the 0/1 solutions are exactly the legal placements |
| PlacementIlp.ObjectiveIsCost | modules/leap/build-support/build-pipelines/stages/lim_connect/map/placeModules.py:128-147 | the objective of a solution is the sum of activity times path length over the channels between different platforms |
| PlacementIlp.OptimumIsOptimal | modules/leap/build-support/build-pipelines/stages/lim_connect/map/placeModules.py:128-147 | a solution of least objective stands for a legal placement of least communication cost |
| PlacementIlp.ReadBack | modules/leap/build-support/build-pipelines/stages/lim_connect/map/placeModules.py:231-239 | reading the positive variables gives exactly that placement |
| UnionSplits.IndexFunction | modules/leap/build-support/build-pipelines/stages/lim_connect/type-compression/taggedUnionCompress.py:46-72 | the constructor's loop computes the lane widths and, for every member, the vector whose bits select exactly the lowest lanes that add up to its width |
| UnionSplits.SplitsAreWidths | modules/leap/build-support/build-pipelines/stages/lim_connect/type-compression/taggedUnionCompress.py:54-72 | the prefix sums of the lane widths are exactly the distinct positive member widths, ascending |
| UnionSplits.MemberFits | modules/leap/build-support/build-pipelines/stages/lim_connect/type-compression/taggedUnionCompress.py:61-72 | the lanes that a member enables add up to its width |
| UnionChannel.MixIsLow | modules/leap/build-support/build-pipelines/stages/lim_connect/type-compression/taggedUnionCompress.py:161-241 | slicing a payload into lanes and mixing the enabled ones gives its low bits and zeros above |
| UnionChannel.CompressKeeps | modules/leap/build-support/build-pipelines/stages/lim_connect/type-compression/taggedUnionCompress.py:222-243 | the compressor's rule keeps the channels' contents equal to the messages under way |
| UnionChannel.DecompressKeeps | modules/leap/build-support/build-pipelines/stages/lim_connect/type-compression/taggedUnionCompress.py:142-181 | the decompressor's rules take out exactly the oldest message |
| UnionChannel.OutputIsPrefix | modules/leap/build-support/build-pipelines/stages/lim_connect/type-compression/taggedUnionCompress.py:142-243 | under every interleaving of the channels the output is the oldest messages in order, each truncated to its member |
| UnionChannel.NeverStuck | modules/leap/build-support/build-pipelines/stages/lim_connect/type-compression/taggedUnionCompress.py:142-243 | until all messages are out and taken, some rule or channel can move or the receiver can take one, with the output's back-pressure and whether or not the compressor's rule is guarded by lanes that it does not use |
| UnionChannel.SomethingMoves | modules/leap/build-support/build-pipelines/stages/lim_connect/type-compression/taggedUnionCompress.py:142-243 | with room at the output, some rule or channel can move without the receiver |
| UnionChannel.RunBounded | modules/leap/build-support/build-pipelines/stages/lim_connect/type-compression/taggedUnionCompress.py:142-243 | no run is longer than what there is to do at its start |
| UnionChannel.QueuesBounded | modules/leap/build-support/build-pipelines/stages/lim_connect/type-compression/taggedUnionCompress.py:142-243 | in every run no queue holds more than its depth |
| UnionChannel.WordFits | modules/leap/build-support/build-pipelines/stages/lim_connect/type-compression/taggedUnionCompress.py:234-241 | the words of a lane fit its width |
| UnionChannel.MaximalRunDelivers | modules/leap/build-support/build-pipelines/stages/lim_connect/type-compression/taggedUnionCompress.py:142-243 | a run that cannot go on has delivered every message and the receiver has taken it |
| UnionChannel.UnionPassesMessages | modules/leap/build-support/build-pipelines/stages/lim_connect/type-compression/taggedUnionCompress.py:46-243 | for the members of a real union: message i comes out as number i, with its tag and exactly the bits of its own member |
| UnionChannel.MemberKept | modules/leap/build-support/build-pipelines/stages/lim_connect/type-compression/taggedUnionCompress.py:61-241 | a member's message keeps exactly the low bits of the member's width |
| ControllerBalance.IndexOfMin | modules/leap/build-support/build-pipelines/stages/lim_memory/remap-scratchpad/remapScratchpad.py:159-161 | the first position of the minimum |
| ControllerBalance.LeastLoadedLeast | modules/leap/build-support/build-pipelines/stages/lim_memory/remap-scratchpad/remapScratchpad.py:143-150 | the controllers of a partitioned client are distinct, in order of load, and no other controller has less |
| ControllerBalance.LeastLoadedFirst | modules/leap/build-support/build-pipelines/stages/lim_memory/remap-scratchpad/remapScratchpad.py:143-150 | among equally loaded controllers the ones with smaller numbers are chosen, and in that order |
| ControllerBalance.SharesAddUp | modules/leap/build-support/build-pipelines/stages/lim_memory/remap-scratchpad/remapScratchpad.py:142-149 | the integer shares of a partitioned client lose less than one request per part |
| ControllerBalance.PartitionAccounted | modules/leap/build-support/build-pipelines/stages/lim_memory/remap-scratchpad/remapScratchpad.py:127-170 | every controller's total is the traffic of its ring stops, with or without partitioned clients |
| ControllerSchedule.SpreadClient | modules/leap/build-support/build-pipelines/stages/lim_memory/remap-scratchpad/remapScratchpad.py:141-150 | one client that is spread, or the exception for an unusable partition |
| ControllerSchedule.SelectAll | modules/leap/build-support/build-pipelines/stages/lim_memory/remap-scratchpad/remapScratchpad.py:139-156 | the clients to be spread and the others are all clients, each as often as given |
| ControllerSchedule.SpreadPlaces | modules/leap/build-support/build-pipelines/stages/lim_memory/remap-scratchpad/remapScratchpad.py:141-150 | a client that is spread has one stop per part, with its share, at distinct controllers that no other comes before |
| ControllerSchedule.BandwidthPartition | modules/leap/build-support/build-pipelines/stages/lim_memory/remap-scratchpad/remapScratchpad.py:122-172 | told over the given clients: an exception exactly if one has a partition of sum 0 or with more parts than controllers; otherwise every client in turn, those to be spread first and each kind by descending traffic, with exactly its stops, the i-th of partition[i] * traffic / sum(partition) or one of all its traffic, at the least loaded controllers of that moment, and no further stops |
| BalanceBound.RoomForLast | modules/leap/build-support/build-pipelines/stages/lim_memory/remap-scratchpad/remapScratchpad.py:157-164 | if three clients never fit a limit that some assignment keeps, the least loaded controller has room for the next client |
| BalanceBound.AverageForLast | modules/leap/build-support/build-pipelines/stages/lim_memory/remap-scratchpad/remapScratchpad.py:157-164 | the least loaded controller has at most the average |
| BalanceBound.GreedyWithinBound | modules/leap/build-support/build-pipelines/stages/lim_memory/remap-scratchpad/remapScratchpad.py:156-164 | after any number of clients no controller exceeds (4m - 1) / 3m of a limit that any assignment keeps |
| BalanceBound.PartitionWithinBound | modules/leap/build-support/build-pipelines/stages/lim_memory/remap-scratchpad/remapScratchpad.py:134-172 | without partitioned clients the assignment succeeds, and its maximum is at most 4/3 - 1/(3m) of the optimum |
| AddressInterleave.Thresholds | modules/leap/build-support/build-pipelines/stages/lim_memory/remap-scratchpad/remapScratchpad.py:665-666 | one threshold per part, the ceiling of its prefix's share of the address span |
| AddressInterleave.ControllerExactly | modules/leap/build-support/build-pipelines/stages/lim_memory/remap-scratchpad/remapScratchpad.py:668-679 | the chain of comparisons sends exactly the addresses between two thresholds to a controller |
| AddressInterleave.ControllerByShares | modules/leap/build-support/build-pipelines/stages/lim_memory/remap-scratchpad/remapScratchpad.py:664-679 | controller j serves exactly the addresses that lie, the span being scaled to the sum of the parts, before the end of part j and not before that of part j - 1 |
| AddressInterleave.LastIsSpan | modules/leap/build-support/build-pipelines/stages/lim_memory/remap-scratchpad/remapScratchpad.py:664-666 | the last threshold is the whole span |
| AddressInterleave.SpanIsLeast | modules/leap/build-support/build-pipelines/stages/lim_memory/remap-scratchpad/remapScratchpad.py:327-327 | the span is the least power of two not below the sum of the parts |
| AddressInterleave.PartSize | modules/leap/build-support/build-pipelines/stages/lim_memory/remap-scratchpad/remapScratchpad.py:664-679 | a part's number of addresses is its share of the span rounded down or up |
| AddressInterleave.PartNotEmpty | modules/leap/build-support/build-pipelines/stages/lim_memory/remap-scratchpad/remapScratchpad.py:327-327 | it is at least the part's own number |
| AddressInterleave.EqualShares | modules/leap/build-support/build-pipelines/stages/lim_memory/remap-scratchpad/remapScratchpad.py:653-663 | with equal portions every controller but the last serves the same number of addresses, and the last serves that many and the remainder of the division |

## Left out

- TopologyDP.SolveTable: rows of the table are arrays of lines, each line a value, instead of three nested lists.
- TreeBuilder.GroupChildren: a finished node is kept as a value, so two references to one node object are not modelled.
- TopologyOptimality.TreeNotCheaper: latencies are exact integers, so rounding of floating-point sums is not modelled.
- ScratchpadTrees.BuildScratchpadTree: the names of inner nodes and the rounding of a partitioned client's bandwidth share are not modelled; the bandwidth of a client is given.
- BalancedTrees.BuildBalancedTree: the shuffle of treeMode 3, which comes after the topology and changes no count; the depth is the exact logarithm, not the rounded one.
- RegionalFlowcontrol.Safety: the two directions of a full-duplex link are two state machines; the methods of RegionalEndpoints say which step of the other direction a credit message is, but runs of the two together are not a machine of their own.
- RegionalEndpoints.SenderChannel.FreeCredits: the counters and the assertions; the notification of waiting senders is not a step, since a waiting send may look at its condition at any time.
- RegionalEndpoints.SenderRegion.PushUMF: one uninterrupted call, handed the link at its other side as an argument instead of through the registered pointer; the condition variable's notification is not a step, since a waiting send may look at its condition at any time.
- ChannelCredits.CounterExact: claimed for one acquiring thread per channel; with several, the transient wrap of the spin path can be taken for credit.
- ChannelEndpoints.OutChannel.FreeCredits: the counter alone; its mutex and the notification of sleepers are steps of ChannelCredits.
- RegionalEndpoints.SenderChannel.TryAcquireCredits: one evaluation of the waiting loop's condition; blocking on the condition variable is the guard of the step in the state machine.
- LaneAllocation.AllocationSound: the matching of provisional assignments to connections by name (assignLinks) is not modelled; both ends of a connection share one assignment.
- LaneCarving.GenerateViaLJF: the connection's width and the links are given; reading them from the environment graph is left out.
- PlatformPair.ConnectPair: a pair of platforms that are linked in both directions, with at least one lane each way; the loops over all pairs, which share nothing, and the router types of the final lanes are not repeated in it.
- PlacementModel.Generate: path lengths are given, budgets are already scaled by the utilisation threshold, and a channel's number stands for its distinct name.
- UnionChannel.OutputIsPrefix: the decompressor's rules of one clock cycle are one step; a union whose members all have width zero is covered here although its generated text would be malformed.
- BalanceBound.PartitionWithinBound: assignments are taken over the clients in sorted order.
- ControllerSchedule.SpreadClient: the text of the exception and the printed reports.
- AddressInterleave.EqualShares: the dynamic parameters' default values; at least two controllers.
- The Gurobi branch of the tree construction, the glpk solve and the shortest paths of the environment graph, which are other solvers.
- Bluespec, C++ and model text, parsers, statistics files, build plumbing and debug output: the numbers and the structure that go into the text are modelled, not the text.
- The hardware peers of the credit protocols and mkTreeRouter are not part of this model; both ends of a link are taken to run the software's rules.
- generateViaCombinational, analyzeNetworkUniform and the older multiplexor generators, which use undefined names.
- RRR clients and servers, the unix pipe device, test applications and type equality: input and output, wrappers, or easy facts only.
