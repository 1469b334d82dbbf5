/**
 * The simulated network object (src/routing/Network.java): the node
 * objects by name, the split-horizon switch, the pending link events and
 * the round counter. Every method updates the node objects in place and
 * is proved to leave the network in the state the functions of module
 * NetworkModel give for the state before the call.
 */
module RoutingNetwork {
  import opened Wrappers
  import opened Events
  import opened RoutingNode
  import opened NetworkModel

  /** The nodes outside `todo` as in `r`, the others as in `s`. */
  function Overlay(s: NetState, r: NetState, todo: set<string>): (o: NetState)
    requires r.Keys == s.Keys
    ensures o.Keys == s.Keys
  {
    map n | n in s :: if n in todo then s[n] else r[n]
  }

  /** Taking one more node from `r`. */
  lemma OverlayStep(s: NetState, r: NetState, todo: set<string>, n: string)
    requires r.Keys == s.Keys && n in todo && n in s
    ensures Overlay(s, r, todo - {n}) == Overlay(s, r, todo)[n := r[n]]
  {
  }

  /** Overlaying nothing, and overlaying everything. */
  lemma OverlayEnds(s: NetState, r: NetState)
    requires r.Keys == s.Keys
    ensures Overlay(s, r, s.Keys) == s && Overlay(s, r, {}) == r
  {
  }

  /** Moving one name from the names still to visit to those visited. */
  lemma VisitOne(names: set<string>, todo: set<string>, visited: set<string>, n: string)
    requires todo <= names && visited == names - todo && n in todo
    ensures todo - {n} <= names && visited + {n} == names - (todo - {n})
  {
  }

  /** One new node per name, with no links and an empty table; for a
      repeated name the node made last is kept. */
  method MakeNodes(names: seq<string>) returns (made: map<string, NetworkNode>)
    ensures made.Keys == set i | 0 <= i < |names| :: names[i]
    ensures forall n :: n in made ==> fresh(made[n]) && made[n].name == n
    ensures forall n :: n in made ==> made[n].table == map[] && made[n].links == map[]
  {
    made := map[];
    for i := 0 to |names|
      invariant made.Keys == set j | 0 <= j < i :: names[j]
      invariant forall n :: n in made ==> fresh(made[n]) && made[n].name == n
      invariant forall n :: n in made ==> made[n].table == map[] && made[n].links == map[]
    {
      var node := new NetworkNode(names[i]);
      made := made[names[i] := node];
    }
  }

  class Network {
    /** The nodes, by name. */
    const nodes: map<string, NetworkNode>
    /** Whether nodes leave out routes that pass through the advertiser. */
    const splitHorizon: bool
    /** The scheduled link events not yet fired or dropped. */
    var events: multiset<NetworkEvent>
    /** The number of exchanges run so far. */
    var currentIteration: int

    /** Each name holds a node object carrying that name, so no object is
        held under two names. */
    ghost predicate NamesFit()
    {
      forall n :: n in nodes ==> nodes[n].name == n
    }

    /** The committed tables and links of all nodes, by name. */
    function State(): (s: NetState)
      reads nodes.Values`table, nodes.Values`links
      ensures s.Keys == nodes.Keys
    {
      map n | n in nodes :: nodes[n].State()
    }

    /** The invariant every public operation keeps: the names fit, every
        table and link refers to known nodes, and every link is recorded
        at both ends with the same cost. */
    ghost predicate Valid()
      reads nodes.Values`table, nodes.Values`links
    {
      NamesFit() && WellFormed(State()) && Symmetric(State())
    }

    /** The node objects hold the committed tables and links of `s`. */
    ghost predicate Mirrors(s: NetState)
      reads nodes.Values`table, nodes.Values`links
    {
      nodes.Keys == s.Keys && forall m :: m in nodes ==> nodes[m].table == s[m].table && nodes[m].links == s[m].links
    }

    /** The state is what the nodes hold. */
    lemma MirrorsState()
      ensures Mirrors(State())
    {
    }

    /** Nodes holding `s` are in state `s`. */
    lemma StateOf(s: NetState)
      requires Mirrors(s)
      ensures State() == s
    {
    }

    /** Nodes holding `s` publish the tables of `s`. */
    lemma PublishesState(s: NetState)
      requires Mirrors(s)
      ensures Publishes(nodes, TablesOf(s))
    {
    }

    /** Builds the network from its node names and link lines: one node
        per name (a repeated name keeps the last node made for it), then
        each line added at both ends in input order, then every table
        initialised over the whole node set. */
    constructor (names: seq<string>, lines: seq<LinkLine>, splitHorizon: bool)
      requires LinesKnown(set i | 0 <= i < |names| :: names[i], lines)
      ensures Valid()
      ensures State() == Built(names, lines)
      ensures nodes.Keys == set i | 0 <= i < |names| :: names[i]
      ensures forall n :: n in nodes ==> fresh(nodes[n])
      ensures this.splitHorizon == splitHorizon && events == multiset{} && currentIteration == 0
    {
      var made := MakeNodes(names);
      nodes := made;
      this.splitHorizon := splitHorizon;
      events := multiset{};
      currentIteration := 0;
      new;
      ghost var empty := Fresh(names);
      InstallLines(empty, lines);
      InitialiseAll(Installed(empty, lines));
      StateOf(Built(names, lines));
      BuiltShape(names, lines);
    }

    /** Every link line installed, in input order. */
    method InstallLines(ghost s: NetState, lines: seq<LinkLine>)
      requires NamesFit() && Mirrors(s) && LinesKnown(s.Keys, lines)
      modifies nodes.Values`table, nodes.Values`links
      ensures Mirrors(Installed(s, lines))
    {
      for i := 0 to |lines|
        invariant Mirrors(Installed(s, lines[..i]))
      {
        assert lines[..i + 1][..i] == lines[..i];
        InstallLine(Installed(s, lines[..i]), lines[i]);
      }
      assert lines[..|lines|] == lines;
    }

    /** Both `addLink` calls for one link line. */
    method InstallLine(ghost s: NetState, l: LinkLine)
      requires NamesFit() && Mirrors(s) && l.node1 in s && l.node2 in s
      modifies nodes.Values`table, nodes.Values`links
      ensures Mirrors(Linked(s, l))
    {
      AddAt(s, l.node1, nodes[l.node1], l.node2, l.cost);
      ghost var s1 := s[l.node1 := LinkAdded(s[l.node1], l.node2, l.cost)];
      AddAt(s1, l.node2, nodes[l.node2], l.node1, l.cost);
    }

    /** `initialiseTable` at every node, over the whole node set. */
    method InitialiseAll(ghost s: NetState)
      requires NamesFit() && Mirrors(s)
      modifies nodes.Values`table
      ensures Mirrors(InitialisedAll(s))
    {
      ghost var r := InitialisedAll(s);
      OverlayEnds(s, r);
      var todo := nodes.Keys;
      while todo != {}
        invariant todo <= nodes.Keys && Mirrors(Overlay(s, r, todo))
        decreases todo
      {
        var n :| n in todo;
        InitialiseAt(Overlay(s, r, todo), n, nodes[n], nodes.Keys);
        OverlayStep(s, r, todo, n);
        todo := todo - {n};
      }
    }

    // Each node operation on nodes holding `s`, as a change of `s` at one name.

    method AddAt(ghost s: NetState, n: string, node: NetworkNode, target: string, cost: int)
      requires NamesFit() && Mirrors(s) && n in nodes && node == nodes[n]
      modifies node`table, node`links
      ensures Mirrors(s[n := LinkAdded(s[n], target, cost)])
    {
      node.AddLink(target, cost);
    }

    method InitialiseAt(ghost s: NetState, n: string, node: NetworkNode, nodeset: set<string>)
      requires NamesFit() && Mirrors(s) && n in nodes && node == nodes[n]
      modifies node`table
      ensures Mirrors(s[n := NodeState(Initialised(s[n].table, n, nodeset), s[n].links)])
    {
      node.InitialiseTable(nodeset);
    }

    method DestroyAt(ghost s: NetState, n: string, node: NetworkNode, other: string) returns (r: bool)
      requires NamesFit() && Mirrors(s) && n in nodes && node == nodes[n]
      modifies node`table, node`links
      ensures Mirrors(s[n := LinkDestroyed(s[n], other).0]) && r == LinkDestroyed(s[n], other).1
    {
      r := node.DestroyLink(other);
    }

    method RecostAt(ghost s: NetState, n: string, node: NetworkNode, other: string, cost: int) returns (r: bool)
      requires NamesFit() && Mirrors(s) && n in nodes && node == nodes[n]
      requires other in s[n].links ==> other in s[n].table
      modifies node`table, node`links
      ensures Mirrors(s[n := LinkCostChanged(s[n], other, cost).0]) && r == LinkCostChanged(s[n], other, cost).1
    {
      r := node.ChangeLinkCost(other, cost);
    }

    method FinaliseAt(ghost s: NetState, n: string, node: NetworkNode, ghost t: Table)
      requires NamesFit() && Mirrors(s) && n in nodes && node == nodes[n] && node.tempTable == t
      modifies node`table
      ensures Mirrors(s[n := NodeState(t, s[n].links)])
    {
      node.FinaliseTable();
    }

    /** `exchange`: one synchronous round in which every node updates
        against the tables all nodes committed before the round, then all
        commit together; then the events scheduled for the new round fire
        in queue order and those for earlier rounds are dropped. Returns
        whether any node reported a change. The nodes are visited, and
        each node hears its neighbours, in an unspecified order, returned
        as `orders`; `fired` is the order the due events fired in. */
    method Exchange() returns (change: bool, ghost orders: map<string, seq<string>>,
                               ghost fired: seq<NetworkEvent>)
      requires Valid()
      requires forall e :: e in events && e.iteration == currentIteration + 1 ==> e.node1 in nodes
      modifies this`events, this`currentIteration
      modifies nodes.Values`table, nodes.Values`tempTable, nodes.Values`links
      ensures Valid()
      ensures currentIteration == old(currentIteration) + 1
      ensures OrdersFit(old(State()), orders)
      ensures forall i :: 0 <= i < |fired| ==> fired[i].node1 in nodes
      ensures change == RoundChanged(old(State()), splitHorizon, orders)
      ensures State() == Exchanged(old(State()), splitHorizon, orders, fired)
      ensures forall e :: multiset(fired)[e] == if e.iteration == currentIteration then old(events)[e] else 0
      ensures forall e :: events[e] == if e.iteration > currentIteration then old(events)[e] else 0
    {
      ghost var s := State();
      MirrorsState();
      currentIteration := currentIteration + 1;
      change, orders := UpdateAll(s);
      ghost var round := RoundSpec(s, splitHorizon, orders);
      RoundPreserves(s, splitHorizon, orders);
      FinaliseAll(s, round);
      fired := FireDueEvents(round);
      StateOf(Exchanged(s, splitHorizon, orders, fired));
    }

    /** `updateRoutingTable` at every node, in an unspecified order: each
        node's working table becomes its update against the committed
        tables; reports whether any node reported a change. */
    method UpdateAll(ghost s: NetState) returns (change: bool, ghost orders: map<string, seq<string>>)
      requires NamesFit() && Mirrors(s) && WellFormed(s)
      modifies nodes.Values`tempTable
      ensures OrdersFit(s, orders) && Mirrors(s)
      ensures change == RoundChanged(s, splitHorizon, orders)
      ensures HoldsTemps(TablesOf(RoundSpec(s, splitHorizon, orders)))
    {
      var todo := nodes.Keys;
      change := false;
      orders := map[];
      ghost var temps: map<string, Table> := map[];
      RoundProgressStart(s, splitHorizon);
      while todo != {}
        invariant todo <= nodes.Keys && orders.Keys == nodes.Keys - todo && Mirrors(s)
        invariant RoundProgress(s, splitHorizon, orders, temps, change)
        invariant HoldsTemps(temps)
        decreases todo
      {
        var n :| n in todo;
        VisitOne(nodes.Keys, todo, orders.Keys, n);
        change, orders, temps := UpdateStep(s, orders, temps, change, n, nodes[n]);
        todo := todo - {n};
      }
      RoundFromUpdates(s, splitHorizon, orders, temps, change);
    }

    /** One more node of the round updated: node `n`, not updated yet. */
    method UpdateStep(ghost s: NetState, ghost orders: map<string, seq<string>>,
                      ghost temps: map<string, Table>, change: bool, n: string, node: NetworkNode)
      returns (change': bool, ghost orders': map<string, seq<string>>, ghost temps': map<string, Table>)
      requires NamesFit() && Mirrors(s) && n in nodes && node == nodes[n] && n !in orders
      requires RoundProgress(s, splitHorizon, orders, temps, change) && HoldsTemps(temps)
      modifies node`tempTable
      ensures Mirrors(s) && orders'.Keys == orders.Keys + {n}
      ensures RoundProgress(s, splitHorizon, orders', temps', change') && HoldsTemps(temps')
    {
      var c, order := UpdateNode(s, n, node, temps);
      RoundProgressStep(s, splitHorizon, orders, temps, change, n, order, node.tempTable, c);
      orders' := orders[n := order];
      temps' := temps[n := node.tempTable];
      change' := change || c;
    }

    /** The working tables of the nodes named in `temps` are the ones given. */
    ghost predicate HoldsTemps(temps: map<string, Table>)
      reads nodes.Values`tempTable
    {
      temps.Keys <= nodes.Keys && forall n :: n in temps ==> nodes[n].tempTable == temps[n]
    }

    /** `updateRoutingTable` at one node of a network holding `s`; the
        working tables of the other nodes are kept. */
    method UpdateNode(ghost s: NetState, n: string, node: NetworkNode, ghost temps: map<string, Table>)
      returns (c: bool, ghost order: seq<string>)
      requires NamesFit() && Mirrors(s) && WellFormed(s) && n in nodes && node == nodes[n]
      requires HoldsTemps(temps) && n !in temps
      modifies node`tempTable
      ensures Enumerates(order, s[n].links.Keys)
      ensures (node.tempTable, c) == NodeUpdate(s, splitHorizon, n, order)
      ensures HoldsTemps(temps[n := node.tempTable])
    {
      WellFormedHearable(s);
      PublishesState(s);
      c, order := RunUpdate(n, node, temps, TablesOf(s));
    }

    /** `updateRoutingTable` at node `n`, keeping the other working tables. */
    method RunUpdate(n: string, node: NetworkNode, ghost temps: map<string, Table>, ghost adv: map<string, Table>)
      returns (c: bool, ghost order: seq<string>)
      requires NamesFit() && n in nodes && node == nodes[n] && HoldsTemps(temps) && n !in temps
      requires Publishes(nodes, adv) && Hearable(node.links, adv, node.table)
      modifies node`tempTable
      ensures Enumerates(order, node.links.Keys) && CanRelax(order, node.links, adv, node.table)
      ensures node.tempTable == UpdatedTable(n, splitHorizon, order, node.links, adv, node.table)
      ensures c == Changed(n, splitHorizon, order, node.links, adv, node.table)
      ensures HoldsTemps(temps[n := node.tempTable])
    {
      c, order := node.UpdateRoutingTable(splitHorizon, nodes, adv);
    }

    /** `finaliseTable` at every node: each working table, which the round
        `r` computed, is committed. */
    method FinaliseAll(ghost s: NetState, ghost r: NetState)
      requires NamesFit() && Mirrors(s) && HoldsTemps(TablesOf(r))
      requires r.Keys == s.Keys && forall n :: n in s ==> r[n].links == s[n].links
      modifies nodes.Values`table
      ensures Mirrors(r)
    {
      OverlayEnds(s, r);
      var todo := nodes.Keys;
      while todo != {}
        invariant todo <= nodes.Keys && Mirrors(Overlay(s, r, todo)) && HoldsTemps(TablesOf(r))
        decreases todo
      {
        var n :| n in todo;
        FinaliseAt(Overlay(s, r, todo), n, nodes[n], r[n].table);
        OverlayStep(s, r, todo, n);
        todo := todo - {n};
      }
    }

    /** The event loop of `exchange` on nodes holding `s`: while the queue
        is not empty, the head event (one of the least by round) is dropped
        when its round is past and fired when its round is now; the loop
        stops at the first head scheduled for a later round. */
    method FireDueEvents(ghost s: NetState) returns (ghost fired: seq<NetworkEvent>)
      requires NamesFit() && Mirrors(s) && WellFormed(s)
      requires forall e :: e in events && e.iteration == currentIteration ==> e.node1 in s
      modifies this`events, nodes.Values`table, nodes.Values`links
      ensures forall i :: 0 <= i < |fired| ==> fired[i].node1 in s && fired[i].iteration == currentIteration
      ensures Mirrors(ApplyEvents(s, fired))
      ensures forall e :: multiset(fired)[e] == if e.iteration == currentIteration then old(events)[e] else 0
      ensures forall e :: events[e] == if e.iteration > currentIteration then old(events)[e] else 0
    {
      var rest;
      rest, fired := DrainQueue(s, events, currentIteration);
      events := rest;
    }

    /** The event loop of round `k` on a copy `queue` of the queue, on
        nodes holding `s`; returns the queue left. */
    method DrainQueue(ghost s: NetState, queue: multiset<NetworkEvent>, k: int)
      returns (rest: multiset<NetworkEvent>, ghost fired: seq<NetworkEvent>)
      requires NamesFit() && Mirrors(s) && WellFormed(s)
      requires forall e :: e in queue && e.iteration == k ==> e.node1 in s
      modifies nodes.Values`table, nodes.Values`links
      ensures forall i :: 0 <= i < |fired| ==> fired[i].node1 in s && fired[i].iteration == k
      ensures Mirrors(ApplyEvents(s, fired))
      ensures forall e :: multiset(fired)[e] == if e.iteration == k then queue[e] else 0
      ensures forall e :: rest[e] == if e.iteration > k then queue[e] else 0
    {
      rest := queue;
      fired := [];
      ghost var cur := s;
      var eventsLeft := true;
      while eventsLeft
        invariant NamesFit() && Mirrors(cur) && Draining(s, queue, fired, cur, rest, k, eventsLeft)
        decreases |rest| + if eventsLeft then 1 else 0
      {
        eventsLeft, rest, fired, cur := PollEvent(s, queue, fired, cur, rest, k);
      }
      DrainingDone(s, queue, fired, cur, rest, k);
    }

    /** One turn of the event loop of round `k` on the queue `queue`: with
        an empty queue the loop stops; otherwise a head is taken and
        dropped, fired, or, being due later, left in place as the loop
        stops. Returns the queue left. */
    method PollEvent(ghost s: NetState, ghost queued: multiset<NetworkEvent>, ghost fired: seq<NetworkEvent>,
                     ghost cur: NetState, queue: multiset<NetworkEvent>, k: int)
      returns (eventsLeft: bool, rest: multiset<NetworkEvent>, ghost fired': seq<NetworkEvent>, ghost cur': NetState)
      requires NamesFit() && Mirrors(cur) && Draining(s, queued, fired, cur, queue, k, true)
      modifies nodes.Values`table, nodes.Values`links
      ensures Mirrors(cur') && Draining(s, queued, fired', cur', rest, k, eventsLeft)
      ensures if eventsLeft then |rest| < |queue| else rest == queue
    {
      fired', cur', rest := fired, cur, queue;
      if queue == multiset{} {
        return false, rest, fired', cur';
      }
      ghost var least := SomeLeast(queue);
      var event :| event in queue && forall o :: o in queue ==> CompareTo(event, o) <= 0;
      TakeShortens(queue, event);
      if event.iteration < k {
        DrainingDrop(s, queued, fired, cur, queue, k, event);
        rest := queue - multiset{event};
        eventsLeft := true;
      } else if event.iteration == k {
        DrainingFire(s, queued, fired, cur, queue, k, event);
        Fire(cur, event);
        rest := queue - multiset{event};
        cur' := ApplyEvent(cur, event);
        fired' := fired + [event];
        eventsLeft := true;
      } else {
        DrainingStop(s, queued, fired, cur, queue, k, event);
        eventsLeft := false;
      }
    }

    /** One due event on nodes holding `s`: a failure destroys its link, a
        cost change changes it. */
    method Fire(ghost s: NetState, e: NetworkEvent)
      requires NamesFit() && Mirrors(s) && WellFormed(s) && e.node1 in s
      modifies nodes.Values`table, nodes.Values`links
      ensures Mirrors(ApplyEvent(s, e))
    {
      match e
      case FailureEvent(_, n1, n2) =>
        var _ := DestroyLinkIn(s, n1, n2);
      case CostChangeEvent(_, n1, n2, c) =>
        var _ := ChangeLinkCostIn(s, n1, n2, c);
    }

    /** `destroyLink`: the link is destroyed at `n1` and, only when `n1`
        had it, at `n2`; reports whether the link existed. */
    method DestroyLink(n1: string, n2: string) returns (r: bool)
      requires Valid() && n1 in nodes
      modifies nodes.Values`table, nodes.Values`links
      ensures Valid()
      ensures (State(), r) == DestroyLinkSpec(old(State()), n1, n2)
    {
      ghost var s := State();
      MirrorsState();
      DestroyLinkPreserves(s, n1, n2);
      r := DestroyLinkIn(s, n1, n2);
      StateOf(DestroyLinkSpec(s, n1, n2).0);
    }

    /** `destroyLink` on nodes holding `s`. */
    method DestroyLinkIn(ghost s: NetState, n1: string, n2: string) returns (r: bool)
      requires NamesFit() && Mirrors(s) && WellFormed(s) && n1 in s
      modifies nodes.Values`table, nodes.Values`links
      ensures n2 in s[n1].links ==> n2 in s
      ensures Mirrors(DestroyLinkSpec(s, n1, n2).0) && r == DestroyLinkSpec(s, n1, n2).1
    {
      assert NodeFits(s.Keys, n1, s[n1]);
      r := DestroyAt(s, n1, nodes[n1], n2);
      if r {
        ghost var s1 := s[n1 := LinkDestroyed(s[n1], n2).0];
        var _ := DestroyAt(s1, n2, nodes[n2], n1);
      } else {
        UpdateSame(s, n1);
      }
    }

    /** `changeLinkCost`: the cost is changed at `n1` and, only when `n1`
        had the link, at `n2`; reports whether the link existed. */
    method ChangeLinkCost(n1: string, n2: string, cost: int) returns (r: bool)
      requires Valid() && n1 in nodes
      modifies nodes.Values`table, nodes.Values`links
      ensures Valid()
      ensures (State(), r) == ChangeLinkCostSpec(old(State()), n1, n2, cost)
    {
      ghost var s := State();
      MirrorsState();
      ChangeLinkCostPreserves(s, n1, n2, cost);
      r := ChangeLinkCostIn(s, n1, n2, cost);
      StateOf(ChangeLinkCostSpec(s, n1, n2, cost).0);
    }

    /** `changeLinkCost` on nodes holding `s`. */
    method ChangeLinkCostIn(ghost s: NetState, n1: string, n2: string, cost: int) returns (r: bool)
      requires NamesFit() && Mirrors(s) && WellFormed(s) && n1 in s
      modifies nodes.Values`table, nodes.Values`links
      ensures Mirrors(ChangeLinkCostSpec(s, n1, n2, cost).0) && r == ChangeLinkCostSpec(s, n1, n2, cost).1
    {
      assert NodeFits(s.Keys, n1, s[n1]);
      r := RecostAt(s, n1, nodes[n1], n2, cost);
      if r {
        ChangeLinkCostSteps(s, n1, n2, cost);
        ghost var s1 := s[n1 := LinkCostChanged(s[n1], n2, cost).0];
        var _ := RecostAt(s1, n2, nodes[n2], n1, cost);
      } else {
        UpdateSame(s, n1);
      }
    }

    /** `traceRoute`: follows next hops from `start` until `destination`
        or a node without one, reporting the path and the start's cost for
        the destination, or no route; at most `fuel` hops are taken, and
        `Unfinished` stands for the walk going on past them. */
    method TraceRoute(start: string, destination: string, fuel: nat) returns (r: Route)
      requires Valid() && start in nodes && destination in nodes[start].table
      ensures HopsKnown(State(), destination)
      ensures r == TraceSpec(State(), start, destination, fuel)
    {
      ghost var s := State();
      MirrorsState();
      WellFormedHopsKnown(s, destination);
      r := Follow(s, start, destination, fuel);
      StateOf(s);
    }

    /** The loop of `traceRoute` on nodes holding `s`. */
    method Follow(ghost s: NetState, start: string, destination: string, fuel: nat) returns (r: Route)
      requires Mirrors(s) && start in s && destination in s[start].table && HopsKnown(s, destination)
      ensures Mirrors(s) && r == TraceSpec(s, start, destination, fuel)
    {
      PrependNothing(Walk(s, start, destination, fuel));
      var walked: seq<string> := [];
      var cursor := start;
      var left := fuel;
      while cursor != destination
        invariant cursor in s && WalkedTo(s, start, destination, fuel, walked, cursor, left)
        decreases left
      {
        if left == 0 {
          TraceRunsOut(s, start, destination, fuel, walked, cursor);
          return Unfinished;
        }
        var hop := nodes[cursor].NextHop(destination);
        if hop.None? {
          TraceStuck(s, start, destination, fuel, walked, cursor, left);
          return NoRoute;
        }
        assert hop == s[cursor].table[destination].hop;
        WalkedOn(s, start, destination, fuel, walked, cursor, left);
        walked := walked + [cursor];
        cursor := hop.value;
        left := left - 1;
      }
      TraceArrives(s, start, destination, fuel, walked, cursor, left);
      r := Found(walked + [cursor], nodes[start].LookupCost(destination));
    }

    /** `addLinkDestroyEvent`: schedules a failure of the link for a round. */
    method AddLinkDestroyEvent(n1: string, n2: string, iteration: int)
      modifies this`events
      ensures events == old(events) + multiset{FailureEvent(iteration, n1, n2)}
    {
      events := events + multiset{FailureEvent(iteration, n1, n2)};
    }

    /** `addCostChangeEvent`: schedules a change of the link's cost for a round. */
    method AddCostChangeEvent(n1: string, n2: string, iteration: int, newCost: int)
      modifies this`events
      ensures events == old(events) + multiset{CostChangeEvent(iteration, n1, n2, newCost)}
    {
      events := events + multiset{CostChangeEvent(iteration, n1, n2, newCost)};
    }
  }
}
