/**
 * One router of the simulated network (src/routing/NetworkNode.java): its
 * link map, its routing table, and the distance-vector update that it
 * computes into a private working copy before committing it.
 *
 * Cross-node references of the Java code (the `target` of a TableEntry)
 * are node names here; since node names are unique, the reference
 * comparisons of the Java code are name comparisons.
 */
module RoutingNode {
  import opened Wrappers

  /** Defaults.INFINITY, the cost that stands for "unreachable". Defaults is
      not part of this model, so the constant is left uninterpreted: every
      proof below holds whatever its value is. */
  const INFINITY: int

  /** A routing-table entry: the cost to the destination and the next hop,
      `None` where the Java code has a null target. */
  datatype Entry = Entry(cost: int, hop: Option<string>)

  /** destination -> entry */
  type Table = map<string, Entry>

  /** neighbour -> link cost */
  type Links = map<string, int>

  /** A node's committed state: its routing table and its links. */
  datatype NodeState = NodeState(table: Table, links: Links)

  /** The entry of a destination with no known route. */
  function Unreachable(): Entry
  {
    Entry(INFINITY, None)
  }

  // ---------------------------------------------------------------------
  // Local link operations, as functions of the node's state
  // ---------------------------------------------------------------------

  /** `initialiseTable`: every other node named in `nodeset` that has no
      entry yet is entered as unreachable; present entries are kept. */
  function Initialised(t: Table, owner: string, nodeset: set<string>): (r: Table)
    ensures r.Keys == t.Keys + (nodeset - {owner})
    ensures forall d :: d in t ==> r[d] == t[d]
    ensures forall d :: d in r && d !in t ==> r[d] == Unreachable() && d != owner
  {
    map d | d in t.Keys + (nodeset - {owner}) :: if d in t then t[d] else Unreachable()
  }

  /** `addLink`: the link and the route to `target` are both set to a direct
      hop of cost `cost`, whatever was there before. */
  function LinkAdded(s: NodeState, target: string, cost: int): (r: NodeState)
    ensures r.links.Keys == s.links.Keys + {target} && r.table.Keys == s.table.Keys + {target}
    ensures r.links[target] == cost && r.table[target] == Entry(cost, Some(target))
    ensures forall m :: m in s.links && m != target ==> r.links[m] == s.links[m]
    ensures forall d :: d in s.table && d != target ==> r.table[d] == s.table[d]
  {
    NodeState(s.table[target := Entry(cost, Some(target))], s.links[target := cost])
  }

  /** The entry as it stands once the link to `n` is gone: a route through `n`
      becomes unreachable. */
  function ResetVia(e: Entry, n: string): Entry
  {
    if e.hop == Some(n) then Unreachable() else e
  }

  /** `destroyLink`: reports whether there was a link to `n`; if so, removes
      it and makes every route through `n` unreachable. */
  function LinkDestroyed(s: NodeState, n: string): (r: (NodeState, bool))
    ensures r.1 <==> n in s.links
    ensures !r.1 ==> r.0 == s
    ensures r.1 ==> r.0.links.Keys == s.links.Keys - {n}
    ensures forall m :: m in r.0.links ==> r.0.links[m] == s.links[m]
    ensures r.0.table.Keys == s.table.Keys
    ensures r.1 ==> forall d :: d in r.0.table ==> r.0.table[d].hop != Some(n)
    ensures r.1 ==> forall d :: d in s.table && s.table[d].hop == Some(n) ==> r.0.table[d] == Unreachable()
    ensures forall d :: d in s.table && s.table[d].hop != Some(n) ==> r.0.table[d] == s.table[d]
  {
    if n in s.links then
      (NodeState(map d | d in s.table :: ResetVia(s.table[d], n), s.links - {n}), true)
    else
      (s, false)
  }

  /** A second `destroyLink` of the same neighbour finds no link and changes nothing. */
  lemma DestroyLinkTwice(s: NodeState, n: string)
    ensures LinkDestroyed(LinkDestroyed(s, n).0, n) == (LinkDestroyed(s, n).0, false)
  {
  }

  /** `changeLinkCost`: reports whether there is a link to `n`; if so, sets
      the link cost and the cost of the table entry for `n`, keeping that
      entry's next hop even where it no longer routes directly. */
  function LinkCostChanged(s: NodeState, n: string, cost: int): (r: (NodeState, bool))
    requires n in s.links ==> n in s.table
    ensures r.1 <==> n in s.links
    ensures !r.1 ==> r.0 == s
    ensures r.0.links.Keys == s.links.Keys && r.0.table.Keys == s.table.Keys
    ensures r.1 ==> r.0.links[n] == cost && r.0.table[n] == Entry(cost, s.table[n].hop)
    ensures forall m :: m in s.links && m != n ==> r.0.links[m] == s.links[m]
    ensures forall d :: d in s.table && d != n ==> r.0.table[d] == s.table[d]
  {
    if n in s.links then
      (NodeState(s.table[n := Entry(cost, s.table[n].hop)], s.links[n := cost]), true)
    else
      (s, false)
  }

  // ---------------------------------------------------------------------
  // The distance-vector update rule
  // ---------------------------------------------------------------------

  /** The result of relaxing one entry: the new entry, and whether the
      update assigned to it (the Java `change` flag). */
  datatype Step = Step(entry: Entry, changed: bool)

  /** Whether neighbour `b` is ignored for destination `d`: `d` is `b`
      itself, or split horizon is on and `b` routes to `d` through `owner`. */
  predicate Skipped(owner: string, splitHorizon: bool, b: string, adv: Table, d: string)
    requires d == b || d in adv
  {
    d == b || (splitHorizon && adv[d].hop == Some(owner))
  }

  /** `owner`'s entry `e` for destination `d` after hearing neighbour `b`,
      reached over a link of cost `c`, advertise its table `adv`
      (NetworkNode.java:189-228). */
  function Relax(owner: string, splitHorizon: bool, b: string, c: int, adv: Table, d: string, e: Entry): Step
    requires d == b || d in adv
  {
    if Skipped(owner, splitHorizon, b, adv, d) then Step(e, false)
    else
      var newCost := adv[d].cost + c;
      if newCost < e.cost then Step(Entry(newCost, Some(b)), true)
      else if e.hop == Some(b) then
        if adv[d].cost == INFINITY then Step(Unreachable(), true)
        else if newCost > e.cost then Step(Entry(newCost, e.hop), true)
        else Step(e, false)
      else Step(e, false)
  }

  /** What hearing one advertisement does to one entry. */
  lemma RelaxCases(owner: string, splitHorizon: bool, b: string, c: int, adv: Table, d: string, e: Entry)
    requires d == b || d in adv
    ensures var r := Relax(owner, splitHorizon, b, c, adv, d, e);
      // the flag is set exactly when the entry changes
      && (r.changed <==> r.entry != e)
      // nothing is learnt from a skipped advertisement
      && (Skipped(owner, splitHorizon, b, adv, d) ==> r == Step(e, false))
      // an entry is kept, routed through b, or made unreachable
      && (r.entry == e || r.entry.hop == Some(b) || r.entry == Unreachable())
      // a strictly better advertised route is always adopted
      && (!Skipped(owner, splitHorizon, b, adv, d) && adv[d].cost + c < e.cost ==>
            r.entry == Entry(adv[d].cost + c, Some(b)))
      // a route through b afterwards has exactly b's advertised cost plus c
      && (!Skipped(owner, splitHorizon, b, adv, d) && r.entry.hop == Some(b) ==>
            r.entry.cost == adv[d].cost + c)
      // a route through b is dropped when b advertises INFINITY and nothing better
      && ((!Skipped(owner, splitHorizon, b, adv, d) && e.hop == Some(b) && adv[d].cost == INFINITY
            && adv[d].cost + c >= e.cost) ==> r.entry == Unreachable())
  {
  }

  /** Every neighbour in `order` is linked, has a table, and advertises `d`
      unless it is `d`. */
  ghost predicate Heard(order: seq<string>, links: Links, adv: map<string, Table>, d: string)
  {
    forall i :: 0 <= i < |order| ==>
      order[i] in links && order[i] in adv && (d == order[i] || d in adv[order[i]])
  }

  /** The neighbours in `order` are linked, have tables, and can be heard
      for every destination of `t`. */
  ghost predicate CanRelax(order: seq<string>, links: Links, adv: map<string, Table>, t: Table)
  {
    && (forall i :: 0 <= i < |order| ==> order[i] in links && order[i] in adv)
    && (forall d :: d in t ==> Heard(order, links, adv, d))
  }

  /** Each neighbour is visited at most once, as a map's key set is. */
  ghost predicate Distinct(order: seq<string>)
  {
    forall i, j :: 0 <= i < j < |order| ==> order[i] != order[j]
  }

  /** `order` lists each key of `keys` exactly once: an iteration order of
      a map with those keys. */
  ghost predicate Enumerates(order: seq<string>, keys: set<string>)
  {
    && Distinct(order)
    && (forall i :: 0 <= i < |order| ==> order[i] in keys)
    && (forall k :: k in keys ==> k in order)
  }

  /** Every neighbour of `links` has a committed table in `adv`, holding
      every destination of `t` other than the neighbour itself. */
  ghost predicate Hearable(links: Links, adv: map<string, Table>, t: Table)
  {
    forall b :: b in links ==> b in adv && forall d :: d in t && d != b ==> d in adv[b]
  }

  /** Hearing the neighbours in any iteration order of the link map is
      possible when they are hearable. */
  lemma HearableCanRelax(order: seq<string>, links: Links, adv: map<string, Table>, t: Table)
    requires Enumerates(order, links.Keys) && Hearable(links, adv, t)
    ensures CanRelax(order, links, adv, t)
  {
    forall d | d in t
      ensures Heard(order, links, adv, d)
    {
      forall i | 0 <= i < |order|
        ensures order[i] in links && order[i] in adv && (d == order[i] || d in adv[order[i]])
      {
        assert order[i] in links;
      }
    }
  }

  /** The entry for `d` after the first `n` neighbours of `order` have been
      heard, first to last, and whether any of them assigned to it. */
  function RelaxAll(owner: string, splitHorizon: bool, order: seq<string>, n: nat, links: Links,
                    adv: map<string, Table>, d: string, e: Entry): Step
    requires n <= |order| && Heard(order, links, adv, d)
    decreases n
  {
    if n == 0 then Step(e, false)
    else
      var p := RelaxAll(owner, splitHorizon, order, n - 1, links, adv, d, e);
      var s := Relax(owner, splitHorizon, order[n - 1], links[order[n - 1]], adv[order[n - 1]], d, p.entry);
      Step(s.entry, p.changed || s.changed)
  }

  /** An entry that no neighbour assigned to is the entry it started as, and
      every next hop is the old one or one of the neighbours heard. */
  lemma {:induction false} RelaxAllKeeps(owner: string, splitHorizon: bool, order: seq<string>, n: nat,
                                         links: Links, adv: map<string, Table>, d: string, e: Entry)
    requires n <= |order| && Heard(order, links, adv, d)
    ensures var r := RelaxAll(owner, splitHorizon, order, n, links, adv, d, e);
      && (!r.changed ==> r.entry == e)
      && (r.entry.hop.Some? && r.entry.hop != e.hop ==> r.entry.hop.value in order[..n])
    decreases n
  {
    if n > 0 {
      var p := RelaxAll(owner, splitHorizon, order, n - 1, links, adv, d, e);
      RelaxAllKeeps(owner, splitHorizon, order, n - 1, links, adv, d, e);
      RelaxCases(owner, splitHorizon, order[n - 1], links[order[n - 1]], adv[order[n - 1]], d, p.entry);
      assert order[..n] == order[..n - 1] + [order[n - 1]];
    }
  }

  /** The working copy after relaxing every entry of `w` against neighbour
      `b` (link cost `c`, committed table `adv`): the inner loop of
      `updateRoutingTable`. */
  function HeardFrom(owner: string, splitHorizon: bool, b: string, c: int, adv: Table, w: Table): Table
    requires forall d :: d in w && d != b ==> d in adv
  {
    map d | d in w :: Relax(owner, splitHorizon, b, c, adv, d, w[d]).entry
  }

  /** Whether hearing neighbour `b` assigned to any entry of `w`. */
  ghost predicate ChangesFrom(owner: string, splitHorizon: bool, b: string, c: int, adv: Table, w: Table)
    requires forall d :: d in w && d != b ==> d in adv
  {
    exists d :: d in w && Relax(owner, splitHorizon, b, c, adv, d, w[d]).changed
  }

  /** The working copy once the first `n` neighbours of `order` have been heard. */
  function PartialTable(owner: string, splitHorizon: bool, order: seq<string>, n: nat, links: Links,
                        adv: map<string, Table>, t: Table): Table
    requires n <= |order| && CanRelax(order, links, adv, t)
  {
    map d | d in t :: RelaxAll(owner, splitHorizon, order, n, links, adv, d, t[d]).entry
  }

  /** Whether any of the first `n` neighbours of `order` assigned to an entry. */
  ghost predicate PartialChanged(owner: string, splitHorizon: bool, order: seq<string>, n: nat, links: Links,
                                 adv: map<string, Table>, t: Table)
    requires n <= |order| && CanRelax(order, links, adv, t)
  {
    exists d :: d in t && RelaxAll(owner, splitHorizon, order, n, links, adv, d, t[d]).changed
  }

  /** Hearing neighbour `order[i]` in the working copy with the first `i`
      neighbours heard yields the working copy with the first `i + 1`
      heard, and the change flag accumulates. */
  lemma HearStep(owner: string, splitHorizon: bool, order: seq<string>, i: nat, links: Links,
                 adv: map<string, Table>, t: Table)
    requires CanRelax(order, links, adv, t) && i < |order|
    ensures var w := PartialTable(owner, splitHorizon, order, i, links, adv, t);
      && (forall d :: d in w && d != order[i] ==> d in adv[order[i]])
      && HeardFrom(owner, splitHorizon, order[i], links[order[i]], adv[order[i]], w)
         == PartialTable(owner, splitHorizon, order, i + 1, links, adv, t)
      && (PartialChanged(owner, splitHorizon, order, i + 1, links, adv, t)
          <==> (PartialChanged(owner, splitHorizon, order, i, links, adv, t)
                || ChangesFrom(owner, splitHorizon, order[i], links[order[i]], adv[order[i]], w)))
  {
    var w := PartialTable(owner, splitHorizon, order, i, links, adv, t);
    forall d | d in t
      ensures d != order[i] ==> d in adv[order[i]]
      ensures RelaxAll(owner, splitHorizon, order, i + 1, links, adv, d, t[d])
              == Step(Relax(owner, splitHorizon, order[i], links[order[i]], adv[order[i]], d, w[d]).entry,
                      RelaxAll(owner, splitHorizon, order, i, links, adv, d, t[d]).changed
                      || Relax(owner, splitHorizon, order[i], links[order[i]], adv[order[i]], d, w[d]).changed)
    {
      assert Heard(order, links, adv, d);
    }
  }

  /** The working copy after a whole `updateRoutingTable`: every entry of
      `t` relaxed against every neighbour in `order`. */
  function UpdatedTable(owner: string, splitHorizon: bool, order: seq<string>, links: Links,
                        adv: map<string, Table>, t: Table): Table
    requires CanRelax(order, links, adv, t)
  {
    PartialTable(owner, splitHorizon, order, |order|, links, adv, t)
  }

  /** What `updateRoutingTable` returns: whether any assignment was made. */
  ghost predicate Changed(owner: string, splitHorizon: bool, order: seq<string>, links: Links,
                          adv: map<string, Table>, t: Table)
    requires CanRelax(order, links, adv, t)
  {
    PartialChanged(owner, splitHorizon, order, |order|, links, adv, t)
  }

  /** An update that reports no change leaves the table as it was, entry by
      entry and key by key. */
  lemma UnchangedUpdateKeepsTable(owner: string, splitHorizon: bool, order: seq<string>, links: Links,
                                  adv: map<string, Table>, t: Table)
    requires CanRelax(order, links, adv, t)
    requires !Changed(owner, splitHorizon, order, links, adv, t)
    ensures UpdatedTable(owner, splitHorizon, order, links, adv, t) == t
  {
    var u := UpdatedTable(owner, splitHorizon, order, links, adv, t);
    forall d | d in t
      ensures u[d] == t[d]
    {
      assert !RelaxAll(owner, splitHorizon, order, |order|, links, adv, d, t[d]).changed;
      RelaxAllKeeps(owner, splitHorizon, order, |order|, links, adv, d, t[d]);
    }
  }

  /** After the first `n` neighbours have been heard, a route through one of
      them that was not skipped for this destination costs exactly what that
      neighbour advertised plus the link cost: the Bellman-Ford consistency
      of distance-vector routing. */
  lemma {:induction false} RelaxAllMatchesAdvert(owner: string, splitHorizon: bool, order: seq<string>,
                                                 n: nat, links: Links, adv: map<string, Table>,
                                                 d: string, e: Entry, i: nat)
    requires n <= |order| && Heard(order, links, adv, d) && Distinct(order)
    requires i < n && !Skipped(owner, splitHorizon, order[i], adv[order[i]], d)
    requires RelaxAll(owner, splitHorizon, order, n, links, adv, d, e).entry.hop == Some(order[i])
    ensures RelaxAll(owner, splitHorizon, order, n, links, adv, d, e).entry.cost
            == adv[order[i]][d].cost + links[order[i]]
    decreases n
  {
    var p := RelaxAll(owner, splitHorizon, order, n - 1, links, adv, d, e);
    RelaxCases(owner, splitHorizon, order[n - 1], links[order[n - 1]], adv[order[n - 1]], d, p.entry);
    if i < n - 1 {
      var p := RelaxAll(owner, splitHorizon, order, n - 1, links, adv, d, e);
      var s := Relax(owner, splitHorizon, order[n - 1], links[order[n - 1]], adv[order[n - 1]], d, p.entry);
      assert order[i] != order[n - 1];
      RelaxCases(owner, splitHorizon, order[n - 1], links[order[n - 1]], adv[order[n - 1]], d, p.entry);
      assert s.entry == p.entry;
      RelaxAllMatchesAdvert(owner, splitHorizon, order, n - 1, links, adv, d, e, i);
    }
  }

  /** The whole-table form of RelaxAllMatchesAdvert. */
  lemma UpdatedRoutesMatchAdverts(owner: string, splitHorizon: bool, order: seq<string>, links: Links,
                                  adv: map<string, Table>, t: Table, d: string, i: nat)
    requires CanRelax(order, links, adv, t) && Distinct(order)
    requires d in t && i < |order| && d != order[i]
    requires !Skipped(owner, splitHorizon, order[i], adv[order[i]], d)
    requires UpdatedTable(owner, splitHorizon, order, links, adv, t)[d].hop == Some(order[i])
    ensures UpdatedTable(owner, splitHorizon, order, links, adv, t)[d].cost
            == adv[order[i]][d].cost + links[order[i]]
  {
    RelaxAllMatchesAdvert(owner, splitHorizon, order, |order|, links, adv, d, t[d], i);
  }

  /** If every next hop of `t` is a neighbour, so is every next hop of the
      updated table. */
  lemma UpdatedHopsAreNeighbours(owner: string, splitHorizon: bool, order: seq<string>, links: Links,
                                 adv: map<string, Table>, t: Table)
    requires CanRelax(order, links, adv, t)
    requires forall d :: d in t && t[d].hop.Some? ==> t[d].hop.value in links
    ensures var u := UpdatedTable(owner, splitHorizon, order, links, adv, t);
      u.Keys == t.Keys && forall d :: d in u && u[d].hop.Some? ==> u[d].hop.value in links
  {
    forall d | d in t
      ensures var r := RelaxAll(owner, splitHorizon, order, |order|, links, adv, d, t[d]).entry;
        r.hop.Some? ==> r.hop.value in links
    {
      RelaxAllKeeps(owner, splitHorizon, order, |order|, links, adv, d, t[d]);
      assert order[..|order|] == order;
    }
  }

  // ---------------------------------------------------------------------
  // The node object
  // ---------------------------------------------------------------------

  /** The node objects `peers` hold the committed tables `adv`, by name. */
  ghost predicate Publishes(peers: map<string, NetworkNode>, adv: map<string, Table>)
    reads peers.Values`table
  {
    adv.Keys == peers.Keys && forall b :: b in peers ==> peers[b].table == adv[b]
  }

  class NetworkNode {
    const name: string
    /** destination -> (cost, next hop) */
    var table: Table
    /** the working copy written by UpdateRoutingTable */
    var tempTable: Table
    /** neighbour -> link cost */
    var links: Links

    constructor (name: string)
      ensures this.name == name && table == map[] && tempTable == map[] && links == map[]
    {
      this.name := name;
      table := map[];
      tempTable := map[];
      links := map[];
    }

    /** The committed state (table and links) of this node. */
    function State(): NodeState
      reads this`table, this`links
    {
      NodeState(table, links)
    }

    /** Enters every other node of `nodeset` that has no entry yet as unreachable. */
    method InitialiseTable(nodeset: set<string>)
      modifies this`table
      ensures table == Initialised(old(table), name, nodeset)
    {
      var todo := nodeset;
      while todo != {}
        invariant todo <= nodeset
        invariant table == Initialised(old(table), name, nodeset - todo)
        decreases todo
      {
        var node :| node in todo;
        if node != name && node !in table {
          table := table[node := Unreachable()];
        }
        todo := todo - {node};
      }
    }

    /** Installs (or overwrites) the direct link and the direct route to `target`. */
    method AddLink(target: string, cost: int)
      modifies this`links, this`table
      ensures State() == LinkAdded(old(State()), target, cost)
    {
      links := links[target := cost];
      table := table[target := Entry(cost, Some(target))];
    }

    /** Removes the link to `nodeName`, if there is one, and makes every
        route through it unreachable; reports whether there was a link. */
    method DestroyLink(nodeName: string) returns (r: bool)
      modifies this`links, this`table
      ensures (State(), r) == LinkDestroyed(old(State()), nodeName)
    {
      if nodeName in links {
        links := links - {nodeName};
        ghost var t0 := table;
        var todo := table.Keys;
        while todo != {}
          invariant todo <= t0.Keys && table.Keys == t0.Keys
          invariant forall d :: d in t0 && d !in todo ==> table[d] == ResetVia(t0[d], nodeName)
          invariant forall d :: d in todo ==> table[d] == t0[d]
          modifies this`table
          decreases todo
        {
          var d :| d in todo;
          if table[d].hop.Some? && table[d].hop.value == nodeName {
            table := table[d := Unreachable()];
          }
          todo := todo - {d};
        }
        assert table == map d | d in t0 :: ResetVia(t0[d], nodeName);
        r := true;
      } else {
        r := false;
      }
    }

    /** Sets the cost of the link to `nodeName` and of the table entry for
        it, if there is such a link; reports whether there was. */
    method ChangeLinkCost(nodeName: string, cost: int) returns (r: bool)
      requires nodeName in links ==> nodeName in table
      modifies this`links, this`table
      ensures (State(), r) == LinkCostChanged(old(State()), nodeName, cost)
    {
      if nodeName in links {
        links := links[nodeName := cost];
        table := table[nodeName := Entry(cost, table[nodeName].hop)];
        r := true;
      } else {
        r := false;
      }
    }

    /** The cost of the known route to `nodeName`. */
    function LookupCost(nodeName: string): (c: int)
      reads this
      requires nodeName in table
    {
      table[nodeName].cost
    }

    /** The next hop towards `destination`, None if unknown. */
    function NextHop(destination: string): (h: Option<string>)
      reads this
      requires destination in table
    {
      table[destination].hop
    }

    /** Starts an update from an entrywise copy of the committed table. */
    method DeepCopyTables()
      modifies this`tempTable
      ensures tempTable == table
    {
      tempTable := map[];
      var todo := table.Keys;
      while todo != {}
        invariant todo <= table.Keys
        invariant tempTable.Keys == table.Keys - todo
        invariant forall d :: d in tempTable ==> tempTable[d] == table[d]
        decreases todo
      {
        var d :| d in todo;
        tempTable := tempTable[d := table[d]];
        todo := todo - {d};
      }
    }

    /** The body of the inner loop of `updateRoutingTable`: relaxes the
        working entry for `destination` against neighbour `adjacent`. */
    method RelaxEntry(splitHorizon: bool, adjacent: string, costToAdjacent: int,
                      adv: Table, destination: string) returns (changed: bool)
      requires destination in tempTable
      requires destination == adjacent || destination in adv
      modifies this`tempTable
      ensures var step := Relax(name, splitHorizon, adjacent, costToAdjacent, adv, destination,
                                old(tempTable)[destination]);
        tempTable == old(tempTable)[destination := step.entry] && changed == step.changed
    {
      changed := false;
      if destination != adjacent
         && !(splitHorizon && adv[destination].hop == Some(name)) {
        var currentCost := tempTable[destination].cost;
        var newCost := adv[destination].cost + costToAdjacent;
        var routeEntry := tempTable[destination];
        if newCost < currentCost {
          tempTable := tempTable[destination := Entry(newCost, Some(adjacent))];
          changed := true;
        } else if routeEntry.hop == Some(adjacent) {
          if adv[destination].cost == INFINITY {
            tempTable := tempTable[destination := Unreachable()];
            changed := true;
          } else if newCost > currentCost {
            tempTable := tempTable[destination := Entry(newCost, routeEntry.hop)];
            changed := true;
          }
        }
      }
    }

    /** The inner loop of `updateRoutingTable`: every working entry relaxed
        against neighbour `adjacent`, whose committed table is `adv`. */
    method HearNeighbour(splitHorizon: bool, adjacent: string, costToAdjacent: int, adv: Table)
      returns (changed: bool)
      requires forall d :: d in tempTable && d != adjacent ==> d in adv
      modifies this`tempTable
      ensures tempTable == HeardFrom(name, splitHorizon, adjacent, costToAdjacent, adv, old(tempTable))
      ensures changed == ChangesFrom(name, splitHorizon, adjacent, costToAdjacent, adv, old(tempTable))
    {
      changed := false;
      var todo := tempTable.Keys;
      while todo != {}
        invariant todo <= old(tempTable).Keys && tempTable.Keys == old(tempTable).Keys
        invariant forall d :: d in tempTable && d !in todo ==>
          tempTable[d] == Relax(name, splitHorizon, adjacent, costToAdjacent, adv, d, old(tempTable)[d]).entry
        invariant forall d :: d in todo ==> tempTable[d] == old(tempTable)[d]
        invariant changed == exists d :: d in old(tempTable) && d !in todo && Relax(name, splitHorizon, adjacent, costToAdjacent, adv, d, old(tempTable)[d]).changed
        decreases todo
      {
        var destination :| destination in todo;
        var c := RelaxEntry(splitHorizon, adjacent, costToAdjacent, adv, destination);
        if c {
          changed := true;
        }
        todo := todo - {destination};
      }
    }

    /** The neighbours in the iteration order of the link map, which the
        model leaves unspecified. */
    method Neighbours() returns (order: seq<string>)
      ensures Enumerates(order, links.Keys)
    {
      order := [];
      var todo := links.Keys;
      while todo != {}
        invariant todo <= links.Keys && Distinct(order)
        invariant forall i :: 0 <= i < |order| ==> order[i] in links && order[i] !in todo
        invariant forall k :: k in links && k !in todo ==> k in order
        decreases todo
      {
        var b :| b in todo;
        order := order + [b];
        todo := todo - {b};
      }
    }

    /** One distance-vector update into `tempTable`: the neighbours are
        heard in the iteration order of the link map (returned as `order`),
        each through its committed table, which `peers` holds by name (as
        `adv` gives them). Neither `table` nor `links` is touched. */
    method UpdateRoutingTable(splitHorizon: bool, peers: map<string, NetworkNode>, ghost adv: map<string, Table>)
      returns (change: bool, ghost order: seq<string>)
      requires Publishes(peers, adv) && Hearable(links, adv, table)
      modifies this`tempTable
      ensures Enumerates(order, links.Keys) && CanRelax(order, links, adv, table)
      ensures tempTable == UpdatedTable(name, splitHorizon, order, links, adv, table)
      ensures change == Changed(name, splitHorizon, order, links, adv, table)
    {
      var neighbours := Neighbours();
      order := neighbours;
      HearableCanRelax(order, links, adv, table);
      change := HearInOrder(splitHorizon, neighbours, peers, adv);
    }

    /** The body of `updateRoutingTable` once the neighbour order is fixed. */
    method HearInOrder(splitHorizon: bool, order: seq<string>, peers: map<string, NetworkNode>,
                       ghost adv: map<string, Table>)
      returns (change: bool)
      requires Publishes(peers, adv) && CanRelax(order, links, adv, table)
      modifies this`tempTable
      ensures tempTable == UpdatedTable(name, splitHorizon, order, links, adv, table)
      ensures change == Changed(name, splitHorizon, order, links, adv, table)
    {
      DeepCopyTables();
      change := HearAll(splitHorizon, order, peers, adv, links, table);
    }

    /** The loop over the neighbours, from the working copy `t` of the
        committed table, with links `l`. */
    method HearAll(splitHorizon: bool, order: seq<string>, peers: map<string, NetworkNode>,
                   ghost adv: map<string, Table>, ghost l: Links, ghost t: Table)
      returns (change: bool)
      requires Publishes(peers, adv) && CanRelax(order, l, adv, t)
      requires l == links && tempTable == t
      modifies this`tempTable
      ensures tempTable == UpdatedTable(name, splitHorizon, order, l, adv, t)
      ensures change == Changed(name, splitHorizon, order, l, adv, t)
    {
      change := false;
      var i := 0;
      while i < |order|
        invariant i <= |order| && Publishes(peers, adv)
        invariant HeardUpTo(splitHorizon, order, i, l, adv, t, change)
      {
        var adjacent := order[i];
        var changed := HearNext(splitHorizon, order, i, l, adv, t, change, peers[adjacent].table, links[adjacent]);
        if changed {
          change := true;
        }
        i := i + 1;
      }
    }

    /** The working copy holds `t` with the first `i` neighbours of `order`
        heard, and `change` says whether any of them assigned to an entry. */
    ghost predicate HeardUpTo(splitHorizon: bool, order: seq<string>, i: nat, l: Links,
                              adv: map<string, Table>, t: Table, change: bool)
      reads this`tempTable
    {
      && i <= |order| && CanRelax(order, l, adv, t)
      && tempTable == PartialTable(name, splitHorizon, order, i, l, adv, t)
      && change == PartialChanged(name, splitHorizon, order, i, l, adv, t)
    }

    /** Hearing the next neighbour `order[i]`, whose committed table is
        `heard` and whose link cost is `cost`. */
    method HearNext(splitHorizon: bool, order: seq<string>, i: nat, ghost l: Links,
                    ghost adv: map<string, Table>, ghost t: Table, ghost change: bool, heard: Table, cost: int)
      returns (changed: bool)
      requires HeardUpTo(splitHorizon, order, i, l, adv, t, change) && i < |order|
      requires heard == adv[order[i]] && cost == l[order[i]]
      modifies this`tempTable
      ensures HeardUpTo(splitHorizon, order, i + 1, l, adv, t, change || changed)
    {
      HearStep(name, splitHorizon, order, i, l, adv, t);
      changed := HearNeighbour(splitHorizon, order[i], cost, heard);
    }

    /** Commits the working copy. */
    method FinaliseTable()
      modifies this`table
      ensures table == tempTable
    {
      table := tempTable;
    }
  }
}
