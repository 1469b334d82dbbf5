# Distance-vector routing simulator, modelled in Dafny

This project models the routing engine of a small distance-vector
routing simulator. A network of named nodes is read as node names plus
link lines. Each node keeps a link map (neighbour to link cost) and a
routing table (destination to cost and next hop). In every round
(`exchange`):

- every node computes a new table into a working copy, from the tables
  its neighbours committed in the previous round (optionally with split
  horizon);
- all nodes then commit together;
- queued link failures and link cost changes due in that round fire, in
  priority-queue order.

Routes are traced by following next hops.

The project has four modules:

- `Events` (`events.dfy`): the two kinds of queued event, and the
  ordering `compareTo` gives them.
- `RoutingNode` (`network_node.dfy`): one router.
  - The pure functions `Initialised`, `LinkAdded`, `LinkDestroyed`,
    `LinkCostChanged` and `Relax` specify its local operations.
  - `UpdatedTable` and `Changed` specify its update.
  - The class `NetworkNode` keeps the fields `table`, `tempTable` and
    `links` of the Java class. Its methods are proved to change them as
    those functions say.
- `NetworkModel` (`network_model.dfy`): the whole network as a value.
  - A `NetState` maps each node name to its committed table and links.
  - It specifies construction (`Built`), a synchronous round
    (`RoundSpec`, `RoundChanged`), the symmetric link operations
    (`DestroyLinkSpec`, `ChangeLinkCostSpec`), firing events
    (`ApplyEvent`, `ApplyEvents`) and route tracing (`Walk`, `TraceSpec`).
  - It proves their properties: well-formedness and symmetry are
    preserved; a stable round is a fixpoint; a learnt route costs the
    neighbour's advertisement plus the link; order-independence of the
    link operations. A reported route follows next hops, visits no node
    twice and is no longer than the number of nodes (`TraceFoundIsRoute`).
    Fuel of at least the node count decides the report
    (`TraceFuelSuffices`). `traceRoute` itself need not terminate: a
    walk still going after one hop per node goes on for ever
    (`WalkLoopsForever`).
- `RoutingNetwork` (`network.dfy`): the class `Network`, with the node
  objects, the event queue and the round counter.
  - Every method is proved to leave the nodes holding the state the
    `NetworkModel` function gives.
  - `Mirrors(s)` ties the node objects to a `NetState`. `Valid()` says
    the network is well formed and its links symmetric; every public
    method preserves it.

The model follows the code where it departs from its own comments or from what distance-vector routing usually does (a cost ceiling, loop detection, updating only direct routes):

- `changeLinkCost` sets the cost of the table entry for the neighbour
  whatever that entry's next hop is (src/routing/NetworkNode.java:138).
  The comment there assumes the entry is the direct route. That holds
  only until a cheaper route through another neighbour is learnt.
- Link costs have no ceiling.
- `traceRoute` has no cycle detection.

Cross-node references in the Java code are node objects. The model uses
node names instead:

- A table entry's `target` is an `Option<string>`, `None` for null.
- The comparisons `destination == adjacent.getName()` (NetworkNode.java:191)
  and `routeEntry.target == adjacent` (NetworkNode.java:217) compare
  references in Java. The model compares names.
- These agree for this code. Every table key and link key is the name
  string of the node it names, and the node map holds one node per name.

## Model

| member | source | states |
|---|---|---|
| Events.ConstructorsStoreFields | src/events/NetworkEvent.java:31-57 | a failure or cost-change event returns from its getters the round, the two node names and the new cost it was built with |
| Events.CompareTo | src/events/NetworkEvent.java:38-45 | the result is -1, 0 or 1, and it is -1 exactly when this event's round is earlier, 0 exactly when the rounds are equal, 1 exactly when it is later |
| Events.SameRoundTies | src/events/NetworkEvent.java:38-45 | events of the same round compare equal both ways, whatever their kinds, nodes or costs |
| Events.CompareToAntisymmetric | src/events/NetworkEvent.java:38-45 | comparing b with a gives the negation of comparing a with b |
| Events.CompareToTotalPreorder | src/events/NetworkEvent.java:38-45 | the ordering is total and transitive: a valid priority-queue order |
| Events.Swapped | src/events/CostChangeEvent.java:12-24 | exchanging the two node names keeps the round, the kind and the new cost, and the swapped event ties with the original |
| Events.SomeLeast | src/routing/Network.java:125 | the head a priority queue may show is an element of the queue that no other element precedes |
| RoutingNode.Initialised | src/routing/NetworkNode.java:68-79 | the table gains an unreachable entry for every other node of the node set that it lacked; existing entries are kept and no entry for the owner is added |
| RoutingNode.LinkAdded | src/routing/NetworkNode.java:89-97 | the link to the target and the route to it are both set to the given cost, the route going direct to the target; every other link and entry is kept |
| RoutingNode.LinkDestroyed | src/routing/NetworkNode.java:107-124 | reports true exactly when the link existed; if not, nothing changes; if so, the link goes, the other links and all destinations stay, routes through the neighbour become unreachable and the other routes are kept |
| RoutingNode.ResetVia | src/routing/NetworkNode.java:113-119 | an entry whose next hop is the lost neighbour becomes unreachable (INFINITY, no hop); any other entry is kept |
| RoutingNode.DestroyLinkTwice | src/routing/NetworkNode.java:107-124 | destroying the same link a second time reports false and changes nothing |
| RoutingNode.LinkCostChanged | src/routing/NetworkNode.java:135-143 | reports true exactly when the link exists; if so, the link cost and the cost of the neighbour's table entry become the new cost, keeping that entry's next hop; everything else is unchanged |
| RoutingNode.Skipped | src/routing/NetworkNode.java:189-198 | neighbour b is ignored for destination d when d is b itself, or when split horizon is on and b's next hop for d is this node |
| RoutingNode.Relax | src/routing/NetworkNode.java:189-228 | one entry heard from one neighbour: unchanged when skipped; the offer (the neighbour's cost plus the link cost) is adopted via the neighbour when strictly cheaper; otherwise, when the entry already goes via that neighbour, it becomes unreachable if the neighbour advertises INFINITY and takes the higher offer if the offer is higher; in every other case it is kept; the flag says whether an assignment was made |
| RoutingNode.RelaxCases | src/routing/NetworkNode.java:189-228 | for one destination and one neighbour: the change flag is set exactly when the entry changes; a skipped advertisement (the neighbour itself, or split horizon) changes nothing; an entry is only kept, routed via the neighbour, or made unreachable; a strictly cheaper offer is adopted; a route via the neighbour costs the offer; a route via a neighbour advertising INFINITY with nothing better is dropped |
| RoutingNode.HearableCanRelax | src/routing/NetworkNode.java:178-205 | when every neighbour has a committed table holding every destination, every lookup the update loop makes, in any iteration order of the links, finds its entry |
| RoutingNode.RelaxAllKeeps | src/routing/NetworkNode.java:178-230 | after hearing any prefix of the neighbours, an entry no neighbour assigned to is unchanged, and a new next hop is one of the neighbours heard |
| RoutingNode.HearStep | src/routing/NetworkNode.java:178-230 | hearing one more neighbour takes the working table from the first i neighbours to the first i+1, and the change flag becomes the old flag or that neighbour's changes |
| RoutingNode.UpdatedTable | src/routing/NetworkNode.java:172-233 | the working table after updateRoutingTable: the committed table with every entry relaxed against every neighbour, first to last in the given iteration order of the links, each neighbour heard through its committed table |
| RoutingNode.Changed | src/routing/NetworkNode.java:172-233 | what updateRoutingTable returns: whether any of those relaxations made an assignment |
| RoutingNode.UnchangedUpdateKeepsTable | src/routing/NetworkNode.java:172-233 | an update that returns false leaves the working table equal to the committed table |
| RoutingNode.RelaxAllMatchesAdvert | src/routing/NetworkNode.java:201-228 | after the neighbours are heard, an entry routed via a neighbour that was not skipped costs exactly that neighbour's advertised cost plus the link cost |
| RoutingNode.UpdatedRoutesMatchAdverts | src/routing/NetworkNode.java:172-233 | the same for a whole table: after the update, a route via a neighbour that was not skipped costs that neighbour's committed cost plus the link cost |
| RoutingNode.UpdatedHopsAreNeighbours | src/routing/NetworkNode.java:172-233 | the update keeps the destinations, and if every next hop was a neighbour, every next hop still is |
| RoutingNode.NetworkNode.constructor | src/routing/NetworkNode.java:34-38 | a node carries the given name, no links and an empty table |
| RoutingNode.NetworkNode.InitialiseTable | src/routing/NetworkNode.java:68-79 | the table becomes Initialised of the old table, the node's name and the node set |
| RoutingNode.NetworkNode.AddLink | src/routing/NetworkNode.java:89-97 | the node's state becomes LinkAdded of its old state |
| RoutingNode.NetworkNode.DestroyLink | src/routing/NetworkNode.java:107-124 | the node's state and the result are LinkDestroyed of the old state |
| RoutingNode.NetworkNode.ChangeLinkCost | src/routing/NetworkNode.java:135-143 | the node's state and the result are LinkCostChanged of the old state |
| RoutingNode.NetworkNode.LookupCost | src/routing/NetworkNode.java:151-153 | the cost of the table entry for the name |
| RoutingNode.NetworkNode.NextHop | src/routing/NetworkNode.java:161-163 | the next hop of the table entry for the destination, None when unknown |
| RoutingNode.NetworkNode.DeepCopyTables | src/routing/NetworkNode.java:302-310 | the working table becomes an entry-by-entry copy of the committed table |
| RoutingNode.NetworkNode.RelaxEntry | src/routing/NetworkNode.java:189-228 | the working entry for the destination becomes Relax of its old value, nothing else in the working table changes, and the result is Relax's change flag |
| RoutingNode.NetworkNode.HearNeighbour | src/routing/NetworkNode.java:184-229 | every working entry is relaxed against one neighbour's committed table; the result says whether any entry was assigned to |
| RoutingNode.NetworkNode.Neighbours | src/routing/NetworkNode.java:178 | the neighbours, each linked neighbour exactly once |
| RoutingNode.NetworkNode.UpdateRoutingTable | src/routing/NetworkNode.java:172-233 | for some iteration order of the links, the working table becomes UpdatedTable of the committed table and the neighbours' committed tables, the result is Changed, and the committed table and links are untouched |
| RoutingNode.NetworkNode.HearInOrder | src/routing/NetworkNode.java:174-231 | given the neighbour order: copying the table, then hearing every neighbour, gives UpdatedTable and Changed |
| RoutingNode.NetworkNode.HearAll | src/routing/NetworkNode.java:176-231 | the loop over the neighbours turns the working copy into UpdatedTable and accumulates Changed |
| RoutingNode.NetworkNode.HearNext | src/routing/NetworkNode.java:179-229 | one pass of the neighbour loop: the working table and the flag move from the first i neighbours heard to the first i+1 |
| RoutingNode.NetworkNode.FinaliseTable | src/routing/NetworkNode.java:316-318 | the committed table becomes the working table |
| NetworkModel.DestroyLinkSpec | src/routing/Network.java:163-171 | destroyLink: the link is destroyed at n1; only if n1 had it, it is destroyed at n2 too and the result is true; otherwise the network is unchanged and the result is false |
| NetworkModel.DestroyLinkWellFormed | src/routing/Network.java:163-171 | destroying a link keeps the node names and a well-formed network well formed |
| NetworkModel.DestroyLinkSymmetric | src/routing/Network.java:163-171 | destroying a link keeps a symmetric network symmetric |
| NetworkModel.DestroyLinkPreserves | src/routing/Network.java:163-171 | both of the above together |
| NetworkModel.DestroyLinkBothEnds | src/routing/Network.java:163-171 | in a symmetric network, afterwards neither end links to the other, and when the link existed neither end routes via the other |
| NetworkModel.DestroyLinkCommutes | src/routing/Network.java:153-171 | in a symmetric network the result does not depend on the order of the two names |
| NetworkModel.DestroyLinkIdempotent | src/routing/Network.java:163-171 | destroying the same link again reports false and changes nothing |
| NetworkModel.ChangeLinkCostSpec | src/routing/Network.java:184-191 | changeLinkCost: the cost is changed at n1; only if n1 had the link, it is changed at n2 too and the result is true; otherwise the network is unchanged and the result is false |
| NetworkModel.ChangeLinkCostWellFormed | src/routing/Network.java:184-191 | changing a link cost keeps the node names and a well-formed network well formed |
| NetworkModel.ChangeLinkCostSymmetric | src/routing/Network.java:184-191 | changing a link cost keeps a symmetric network symmetric |
| NetworkModel.ChangeLinkCostPreserves | src/routing/Network.java:184-191 | both of the above together |
| NetworkModel.ChangeLinkCostBothEnds | src/routing/Network.java:184-191 | in a symmetric network the result is true exactly when the link exists, and then both ends carry the new cost on the link and on their table entries for each other |
| NetworkModel.ChangeLinkCostCommutes | src/routing/Network.java:173-191 | in a symmetric network the result does not depend on the order of the two names |
| NetworkModel.ApplyEvent | src/routing/Network.java:132-143 | firing an event (a failure destroys the link, a cost change changes its cost) keeps the node names, well-formedness and symmetry |
| NetworkModel.ApplySwappedEvent | src/routing/Network.java:221-244 | in a symmetric network an event and the same event with its nodes exchanged have the same effect |
| NetworkModel.ApplyEvents | src/routing/Network.java:123-148 | firing events one after another keeps the node names, well-formedness and symmetry |
| NetworkModel.LeastIsLater | src/routing/Network.java:144-147 | when the head of the queue is due after this round, so is every queued event |
| NetworkModel.EventsSplitDrop | src/routing/Network.java:129-131 | dropping an event of a past round keeps the queue's account: queued events are those fired plus those left, minus earlier ones |
| NetworkModel.EventsSplitFire | src/routing/Network.java:132-134 | firing an event due this round moves it from the queue to the fired events |
| NetworkModel.EventsSplitDone | src/routing/Network.java:123-148 | when only later events remain, each event due this round fired exactly as often as it was queued, earlier events are gone and later ones are all still queued |
| NetworkModel.DrainingDrop | src/routing/Network.java:129-131 | the event loop's invariant survives dropping a stale head |
| NetworkModel.DrainingFire | src/routing/Network.java:132-143 | the event loop's invariant survives firing a due head, the network moving by ApplyEvent |
| NetworkModel.DrainingStop | src/routing/Network.java:144-147 | a head due in a later round ends the loop with the invariant intact |
| NetworkModel.DrainingDone | src/routing/Network.java:123-148 | when the loop ends, the network is ApplyEvents of the fired events, which are exactly this round's queued events, and the queue keeps exactly the later ones |
| NetworkModel.WellFormedHearable | src/routing/Network.java:115-117 | in a well-formed network every node can hear all its neighbours: each neighbour's table holds every destination it needs |
| NetworkModel.WellFormedCanRelax | src/routing/Network.java:115-117 | the same, for any iteration orders of the links |
| NetworkModel.NodeUpdate | src/routing/Network.java:116 | one node's part of a round: its UpdatedTable and Changed against the tables all nodes committed before the round |
| NetworkModel.SomeChangedStep | src/routing/Network.java:115-117 | after one more node's update, "some node reported a change" holds exactly when it held before or that node reported one |
| NetworkModel.TempsFitStep | src/routing/Network.java:115-117 | after one more node's update, the working tables are the updates of the nodes visited so far |
| NetworkModel.RoundProgressStart | src/routing/Network.java:112-115 | before any node is updated, no change is reported and no working tables are recorded |
| NetworkModel.RoundProgressStep | src/routing/Network.java:115-117 | updating one more node extends the round's account by that node's working table and change flag |
| NetworkModel.RoundFromUpdates | src/routing/Network.java:112-121 | once every node is updated, in whatever order, the working tables are the round's tables and the flag is the round's result |
| NetworkModel.RoundSpec | src/routing/Network.java:110-121 | the network after the update and finalise loops: every node's table is its UpdatedTable against the tables committed before the round, and links are untouched |
| NetworkModel.RoundChanged | src/routing/Network.java:110-121 | what exchange returns: whether some node's update reported a change |
| NetworkModel.RoundPreserves | src/routing/Network.java:110-121 | a round keeps the node names, every link and each table's destinations, and so keeps the network well formed and symmetric |
| NetworkModel.StableRoundIsFixpoint | src/routing/Network.java:105-121 | a round whose result is false leaves every table as it was |
| NetworkModel.RoundRoutesMatchAdverts | src/routing/Network.java:114-121 | after a round, a route via a neighbour that was not skipped costs that neighbour's previous cost plus the link cost |
| NetworkModel.Fresh | src/routing/Network.java:61-65 | one node per name in the first input line, with no links and an empty table |
| NetworkModel.Installed | src/routing/Network.java:72-91 | installing link lines adds no nodes |
| NetworkModel.InitialisedAll | src/routing/Network.java:99-102 | initialising every table adds no nodes |
| NetworkModel.InstalledLinks | src/routing/Network.java:72-91 | after the link lines, each node links to exactly the nodes some line joined it to, at the cost of the last such line, and its table holds exactly those direct routes |
| NetworkModel.Linked | src/routing/Network.java:81-90 | one link line installed: addLink at its first node towards the second, then at the second towards the first, both at the line's cost |
| NetworkModel.LinkedLinks | src/routing/Network.java:81-90 | one line adds the link in both directions at its cost, leaves every other link alone, and keeps every table equal to the direct routes |
| NetworkModel.InitialisedFits | src/routing/Network.java:99-102 | after initialisation the network is well formed, and every node's entry for another node is the direct route when they are linked and unreachable otherwise |
| NetworkModel.LinksFromSymmetric | src/routing/Network.java:78-90 | links installed from lines naming known nodes go to known nodes and are symmetric |
| NetworkModel.Built | src/routing/Network.java:40-103 | the constructor's network: fresh nodes for the names, the link lines installed first to last, then every table initialised over the whole node set |
| NetworkModel.BuiltShape | src/routing/Network.java:40-103 | the constructed network has one node per name, is well formed and symmetric, and each node's entry for another node is a direct route at the cost of the last line joining them, or unreachable when no line does |
| NetworkModel.LastCostSymmetric | src/routing/Network.java:78-90 | the last line joining a and b is the last line joining b and a |
| NetworkModel.WellFormedHopsKnown | src/routing/Network.java:203-206 | in a well-formed network, every node other than the destination has an entry for it, and its next hop is a node |
| NetworkModel.Walk | src/routing/Network.java:203-211 | traceRoute's loop from a node: arrived if it is the destination; otherwise stuck if it has no next hop; otherwise the node followed by the walk from its next hop, with one hop of fuel less; looping once the fuel runs out |
| NetworkModel.WalkShape | src/routing/Network.java:203-211 | the walk starts at the start node and follows next hops; one that arrives ends at the destination, one that stops ends at a node other than the destination with no next hop, and neither takes more hops than the fuel |
| NetworkModel.ChainDeterministic | src/routing/Network.java:203-211 | a node met twice on a walk is followed by the same nodes both times |
| NetworkModel.ChainEndingDistinct | src/routing/Network.java:203-211 | a walk that arrives or stops visits no node twice |
| NetworkModel.WalkFuelMonotone | src/routing/Network.java:203-211 | more fuel does not change a walk that ended |
| NetworkModel.WalkFuelEnough | src/routing/Network.java:203-211 | a walk that ended on a path of k nodes ends the same way with any fuel of at least k |
| NetworkModel.WalkLoopsForever | src/routing/Network.java:203-211 | a walk still going after as many hops as there are nodes goes on with any more fuel: the loop of traceRoute never ends |
| NetworkModel.TraceSpec | src/routing/Network.java:200-219 | traceRoute's report: the walked path and the start's table cost for the destination if the walk arrives, no route if it gets stuck, unfinished if the fuel runs out |
| NetworkModel.TraceArrives | src/routing/Network.java:213-217 | reaching the destination reports the path walked, plus the destination, with the start's cost for the destination |
| NetworkModel.TraceStuck | src/routing/Network.java:205-213 | reaching a node other than the destination without a next hop reports that no route exists |
| NetworkModel.TraceFoundIsRoute | src/routing/Network.java:200-219 | a reported route runs from the start to the destination along next hops, visits no node twice, is no longer than the number of nodes, and costs what the start's table says |
| NetworkModel.TraceNoRoute | src/routing/Network.java:200-219 | when no route is reported, following next hops from the start reaches, without repeating a node, a node other than the destination that has no next hop |
| NetworkModel.TraceFuelSuffices | src/routing/Network.java:203-211 | with at least as much fuel as there are nodes, the report no longer depends on the fuel |
| NetworkModel.Exchanged | src/routing/Network.java:110-148 | a round followed by the events that fired keeps the node names, well-formedness and symmetry |
| NetworkModel.QuietExchangeIsFixpoint | src/routing/Network.java:105-151 | an exchange that reports no change and fires no event leaves the network as it was |
| RoutingNetwork.MakeNodes | src/routing/Network.java:61-65 | one new node per name, carrying that name, with no links and an empty table; a repeated name keeps the node made last |
| RoutingNetwork.Network.constructor | src/routing/Network.java:40-103 | the new network is valid, holds exactly Built of the names and link lines with one fresh node per name, and has the given split-horizon setting, an empty event queue and round 0 |
| RoutingNetwork.Network.InstallLines | src/routing/Network.java:72-91 | the nodes hold Installed of the lines, installed first to last |
| RoutingNetwork.Network.InstallLine | src/routing/Network.java:81-90 | the two addLink calls for one line make the nodes hold Linked of the line |
| RoutingNetwork.Network.InitialiseAll | src/routing/Network.java:99-102 | the nodes hold InitialisedAll of their state |
| RoutingNetwork.Network.Exchange | src/routing/Network.java:110-151 | the round counter goes up by one; the result is RoundChanged of the state before; the network becomes Exchanged of it, for some orders and fired events; the fired events are exactly this round's queued events, the queue keeps exactly the later ones, and the network stays valid |
| RoutingNetwork.Network.UpdateAll | src/routing/Network.java:114-117 | every node's working table becomes its part of RoundSpec while no committed state changes; the result is RoundChanged |
| RoutingNetwork.Network.UpdateStep | src/routing/Network.java:115-117 | updating one more node keeps the committed state and extends the round's account |
| RoutingNetwork.Network.UpdateNode | src/routing/Network.java:116 | one node's working table and result are its NodeUpdate, and the other nodes' working tables are kept |
| RoutingNetwork.Network.FinaliseAll | src/routing/Network.java:118-121 | every node commits its working table, so the nodes hold the round's result |
| RoutingNetwork.Network.FireDueEvents | src/routing/Network.java:122-148 | the nodes hold ApplyEvents of the fired events, which are exactly this round's queued events; the queue keeps exactly the later events |
| RoutingNetwork.Network.DrainQueue | src/routing/Network.java:123-148 | the same for the event loop run on a queue |
| RoutingNetwork.Network.PollEvent | src/routing/Network.java:124-147 | one pass of the event loop keeps its invariant, and the queue shrinks unless the loop stops |
| RoutingNetwork.Network.Fire | src/routing/Network.java:132-143 | the nodes hold ApplyEvent of the event |
| RoutingNetwork.Network.DestroyLink | src/routing/Network.java:163-171 | the new state and the result are DestroyLinkSpec of the old state, and the network stays valid |
| RoutingNetwork.Network.DestroyLinkIn | src/routing/Network.java:163-171 | the body of destroyLink on nodes holding s: the nodes come to hold DestroyLinkSpec's network and the result is its flag |
| RoutingNetwork.Network.ChangeLinkCost | src/routing/Network.java:184-191 | the new state and the result are ChangeLinkCostSpec of the old state, and the network stays valid |
| RoutingNetwork.Network.ChangeLinkCostIn | src/routing/Network.java:184-191 | the body of changeLinkCost on nodes holding s: the nodes come to hold ChangeLinkCostSpec's network and the result is its flag |
| RoutingNetwork.Network.TraceRoute | src/routing/Network.java:200-219 | the report is TraceSpec of the current state |
| RoutingNetwork.Network.Follow | src/routing/Network.java:201-219 | the loop that follows next hops reports TraceSpec and changes nothing |
| RoutingNetwork.Network.AddLinkDestroyEvent | src/routing/Network.java:229-231 | a failure event for the pair and round joins the queue, and nothing else changes |
| RoutingNetwork.Network.AddCostChangeEvent | src/routing/Network.java:242-244 | a cost-change event for the pair, round and cost joins the queue, and nothing else changes |

## Left out

- Reading the input file is not modelled. The constructor takes the node names and the parsed link lines. Opening the file, the empty-file exit, the stop at an empty line, parse errors and `System.exit` are not modelled.
- RoutingNetwork.Network.constructor: a link line naming an unknown node makes the Java constructor exit. The model excludes it with the requirement `LinesKnown`.
- Exceptions for unknown names are excluded by preconditions. An unknown first name in `destroyLink`, in `changeLinkCost` or in a due event, and an unknown start in `traceRoute`, dereferences null in Java; the model requires the name to be a node.
- RoutingNetwork.Network.TraceRoute: the model requires the destination to be in the start's table, which Java needs to avoid dereferencing null. The report is a `Route` value (the path plus the cost, or no route), not the printed string. A `fuel` bound stands for the possibly endless loop, and `Unfinished` for a walk that goes on past it. NetworkModel.WalkLoopsForever and NetworkModel.TraceFuelSuffices show that fuel of at least the number of nodes decides the outcome.
- Printing is not modelled: `routingTable`, `links`, `printRoutingTables`, `printRoutingTable`, `printLinks` and the failure message in `exchange`. It is output only.
- The getters `getName`, `getTable`, `getLinks`, `getNode1`, `getNode2`, `getIteration`, `getNewCost`, `isSplitHorizon` and `getCurrentIteration` are the datatype's and classes' own fields.
- RoutingNode.NetworkNode.Neighbours: the iteration order of a HashMap is left unspecified. The method promises only that each neighbour appears once. Updates, rounds and their lemmas hold for every such order.
- RoutingNetwork.Network.UpdateAll: the order in which nodes are visited is left unspecified, because it is HashMap iteration. Its ensures hold whatever the order.
- RoutingNetwork.Network.DrainQueue: the order among tied events is left unspecified, because PriorityQueue does not fix it. Any least event may come first. The ghost `fired` records the order that happened.
- RoutingNetwork.Network.FireDueEvents: the Java loop polls the queue field directly. The model runs the loop on the queue's value and stores what is left back into the field. The result is the same.
- Integer overflow of Java `int` is not modelled. Costs are unbounded integers, so a sum of INFINITY and a link cost does not wrap.
- `Defaults.INFINITY` is an uninterpreted constant. The Defaults class is not part of this model, and every property holds whatever its value is.
- The null check on the adjacent node at NetworkNode.java:181 is not modelled. Every link is made with a node object, so the branch is never taken.
- RoutingNode.NetworkNode.constructor: Java leaves `tempTable` null until the first update. The model starts it empty. No operation reads it before `deepCopyTables` sets it.
- `DistanceRoutingSimulator` is not modelled. It is the command-line driver that loops `exchange` and prints.
- Convergence is not claimed. The model proves that a stable round is a fixpoint, not that a stable round is ever reached; with split horizon off, counting to infinity is possible.
