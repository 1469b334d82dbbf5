/**
 * The operations of the simulated network (src/routing/Network.java) as
 * functions of the value `NetState`: each node's committed table and
 * links, by name. Construction, synchronous distance-vector rounds,
 * symmetric link operations, event firing and route tracing are stated
 * here and their properties proved; the class `Network` (module
 * RoutingNetwork) updates node objects in place and is proved to follow
 * these functions.
 */
module NetworkModel {
  import opened Wrappers
  import opened Events
  import opened RoutingNode

  /** node name -> committed state of that node */
  type NetState = map<string, NodeState>

  // ---------------------------------------------------------------------
  // Well-formed and symmetric networks
  // ---------------------------------------------------------------------

  /** Node `n` of a network whose node names are `names`: it links only to
      nodes, holds a route to every other node and to nothing else but
      possibly itself, has a route to each neighbour, and only forwards to
      neighbours. */
  ghost predicate NodeFits(names: set<string>, n: string, v: NodeState)
  {
    && v.links.Keys <= names
    && v.links.Keys <= v.table.Keys
    && v.table.Keys <= names
    && names - {n} <= v.table.Keys
    && forall d :: d in v.table && v.table[d].hop.Some? ==> v.table[d].hop.value in v.links
  }

  /** The shape every reachable network state has. */
  ghost predicate WellFormed(s: NetState)
  {
    forall n :: n in s ==> NodeFits(s.Keys, n, s[n])
  }

  /** Every link is known at both ends, with the same cost. */
  ghost predicate Symmetric(s: NetState)
  {
    forall a, b :: a in s && b in s[a].links ==> b in s && a in s[b].links && s[b].links[a] == s[a].links[b]
  }

  /** Symmetry depends on the links alone. */
  lemma SymmetricSameLinks(s: NetState, r: NetState)
    requires Symmetric(s) && r.Keys == s.Keys
    requires forall a :: a in s ==> r[a].links == s[a].links
    ensures Symmetric(r)
  {
    forall a, b | a in r && b in r[a].links
      ensures b in r && a in r[b].links && r[b].links[a] == r[a].links[b]
    {
      assert r[a].links == s[a].links && b in s && r[b].links == s[b].links;
    }
  }

  // ---------------------------------------------------------------------
  // Link failure and link cost change, at both ends
  // ---------------------------------------------------------------------

  /** `destroyLink(n1, n2)`: if `n1` links to `n2`, the link is destroyed at
      `n1` and then at `n2`; reports whether `n1` had the link. */
  function DestroyLinkSpec(s: NetState, n1: string, n2: string): (r: (NetState, bool))
    requires n1 in s && (n2 in s[n1].links ==> n2 in s)
  {
    var (a, ok) := LinkDestroyed(s[n1], n2);
    if ok then
      var s1 := s[n1 := a];
      (s1[n2 := LinkDestroyed(s1[n2], n1).0], true)
    else
      (s, false)
  }

  /** `changeLinkCost(n1, n2, cost)`: if `n1` links to `n2`, the cost is
      changed at `n1` and then at `n2`; reports whether `n1` had the link. */
  function ChangeLinkCostSpec(s: NetState, n1: string, n2: string, cost: int): (r: (NetState, bool))
    requires n1 in s && WellFormed(s)
  {
    var (a, ok) := LinkCostChanged(s[n1], n2, cost);
    if ok then
      var s1 := s[n1 := a];
      assert NodeFits(s.Keys, n2, s[n2]);
      (s1[n2 := LinkCostChanged(s1[n2], n1, cost).0], true)
    else
      (s, false)
  }

  /** Storing a node's own state back leaves the network as it was. */
  lemma UpdateSame(s: NetState, n: string)
    requires n in s
    ensures s[n := s[n]] == s
  {
    assert s[n := s[n]].Keys == s.Keys;
  }

  /** The links `x` loses when the link between `n1` and `n2` is destroyed at both ends. */
  function Cut(x: string, n1: string, n2: string): set<string>
  {
    (if x == n1 then {n2} else {}) + (if x == n2 then {n1} else {})
  }

  /** Removing the link between `n1` and `n2` at `n1` (giving `a`) and then
      at `n2` (giving `b`) keeps a network symmetric. */
  lemma CutKeepsSymmetric(s: NetState, n1: string, n2: string, a: NodeState, b: NodeState)
    requires Symmetric(s) && n1 in s && n2 in s
    requires a.links == s[n1].links - {n2}
    requires n1 != n2 ==> b.links == s[n2].links - {n1}
    requires n1 == n2 ==> b == a
    ensures Symmetric(s[n1 := a][n2 := b])
  {
    var r := s[n1 := a][n2 := b];
    forall x, m | x in r && m in r[x].links
      ensures m in r && x in r[m].links && r[m].links[x] == r[x].links[m]
    {
      assert r[x].links.Keys == s[x].links.Keys - Cut(x, n1, n2);
      assert r[x].links[m] == s[x].links[m];
      assert r[m].links.Keys == s[m].links.Keys - Cut(m, n1, n2);
      assert x !in Cut(m, n1, n2);
    }
  }

  /** Setting the cost of the link between `n1` and `n2` at `n1` (giving
      `a`) and then at `n2` (giving `b`) keeps a network symmetric. */
  lemma RecostKeepsSymmetric(s: NetState, n1: string, n2: string, cost: int, a: NodeState, b: NodeState)
    requires Symmetric(s) && n1 in s && n2 in s && n2 in s[n1].links
    requires a.links == s[n1].links[n2 := cost]
    requires b.links == s[n1 := a][n2].links[n1 := cost]
    ensures Symmetric(s[n1 := a][n2 := b])
  {
    var r := s[n1 := a][n2 := b];
    forall x, m | x in r && m in r[x].links
      ensures m in r && x in r[m].links && r[m].links[x] == r[x].links[m]
    {
      assert r[x].links.Keys == s[x].links.Keys;
      assert r[x].links[m] == if m in Cut(x, n1, n2) then cost else s[x].links[m];
      assert r[m].links.Keys == s[m].links.Keys;
      assert x in Cut(m, n1, n2) <==> m in Cut(x, n1, n2);
    }
  }

  /** The link map after destroying the link to `n`. */
  lemma LinksAfterDestroy(v: NodeState, n: string)
    ensures LinkDestroyed(v, n).0.links == v.links - {n}
  {
  }

  /** The link map after changing the cost of an existing link to `n`. */
  lemma LinksAfterRecost(v: NodeState, n: string, cost: int)
    requires n in v.links ==> n in v.table
    ensures LinkCostChanged(v, n, cost).0.links == if n in v.links then v.links[n := cost] else v.links
  {
  }

  /** Destroying a link of a fitting node leaves it fitting. */
  lemma LinkDestroyedFits(names: set<string>, m: string, v: NodeState, n: string)
    requires NodeFits(names, m, v)
    ensures NodeFits(names, m, LinkDestroyed(v, n).0)
  {
  }

  /** Changing a link cost of a fitting node leaves it fitting. */
  lemma LinkCostChangedFits(names: set<string>, m: string, v: NodeState, n: string, cost: int)
    requires NodeFits(names, m, v)
    ensures NodeFits(names, m, LinkCostChanged(v, n, cost).0)
  {
  }

  /** Updates of two different nodes can be made in either order. */
  lemma UpdatesCommute(s: NetState, n1: string, a: NodeState, n2: string, b: NodeState)
    requires n1 != n2
    ensures s[n1 := a][n2 := b] == s[n2 := b][n1 := a]
  {
  }

  /** Replacing one node's state by a fitting one keeps a network well formed. */
  lemma ReplaceFits(s: NetState, n: string, v: NodeState)
    requires WellFormed(s) && n in s && NodeFits(s.Keys, n, v)
    ensures s[n := v].Keys == s.Keys && WellFormed(s[n := v])
  {
    var r := s[n := v];
    assert r.Keys == s.Keys;
    forall m | m in r
      ensures NodeFits(r.Keys, m, r[m])
    {
      if m != n {
        assert r[m] == s[m];
      }
    }
  }

  /** Destroying a link leaves the network well formed. */
  lemma DestroyLinkWellFormed(s: NetState, n1: string, n2: string)
    requires n1 in s && WellFormed(s)
    ensures var r := DestroyLinkSpec(s, n1, n2).0;
      r.Keys == s.Keys && WellFormed(r)
  {
    assert NodeFits(s.Keys, n1, s[n1]);
    if n2 in s[n1].links {
      var a := LinkDestroyed(s[n1], n2).0;
      LinkDestroyedFits(s.Keys, n1, s[n1], n2);
      ReplaceFits(s, n1, a);
      var s1 := s[n1 := a];
      assert NodeFits(s.Keys, n2, s1[n2]);
      LinkDestroyedFits(s.Keys, n2, s1[n2], n1);
      ReplaceFits(s1, n2, LinkDestroyed(s1[n2], n1).0);
    }
  }

  /** Destroying a link keeps a symmetric network symmetric. */
  lemma DestroyLinkSymmetric(s: NetState, n1: string, n2: string)
    requires n1 in s && WellFormed(s) && Symmetric(s)
    ensures Symmetric(DestroyLinkSpec(s, n1, n2).0)
  {
    assert NodeFits(s.Keys, n1, s[n1]);
    if n2 in s[n1].links {
      assert n1 in s[n2].links;
      var a := LinkDestroyed(s[n1], n2).0;
      var b := LinkDestroyed(s[n1 := a][n2], n1).0;
      LinksAfterDestroy(s[n1], n2);
      LinksAfterDestroy(s[n1 := a][n2], n1);
      CutKeepsSymmetric(s, n1, n2, a, b);
      assert DestroyLinkSpec(s, n1, n2).0 == s[n1 := a][n2 := b];
    }
  }

  /** Destroying a link leaves the network well formed, and symmetric if it was. */
  lemma DestroyLinkPreserves(s: NetState, n1: string, n2: string)
    requires n1 in s && WellFormed(s)
    ensures var r := DestroyLinkSpec(s, n1, n2).0;
      r.Keys == s.Keys && WellFormed(r) && (Symmetric(s) ==> Symmetric(r))
  {
    DestroyLinkWellFormed(s, n1, n2);
    if Symmetric(s) {
      DestroyLinkSymmetric(s, n1, n2);
    }
  }

  /** For a symmetric network, the link is gone at both ends afterwards and
      no route of either end goes through the other. */
  lemma DestroyLinkBothEnds(s: NetState, n1: string, n2: string)
    requires n1 in s && n2 in s && Symmetric(s)
    ensures var (r, ok) := DestroyLinkSpec(s, n1, n2);
      && n2 !in r[n1].links && n1 !in r[n2].links
      && (ok ==> forall d :: d in r[n1].table ==> r[n1].table[d].hop != Some(n2))
      && (ok ==> forall d :: d in r[n2].table ==> r[n2].table[d].hop != Some(n1))
  {
    if n2 in s[n1].links {
      assert n1 in s[n2].links;
      var a := LinkDestroyed(s[n1], n2).0;
      var b := LinkDestroyed(s[n1 := a][n2], n1).0;
      assert DestroyLinkSpec(s, n1, n2).0 == s[n1 := a][n2 := b];
      LinksAfterDestroy(s[n1], n2);
      LinksAfterDestroy(s[n1 := a][n2], n1);
      if n1 == n2 {
        assert b == a;
      }
    } else if n1 in s[n2].links {
      assert false;
    }
  }

  /** For a symmetric network, the order of the two names of `destroyLink`
      does not matter. */
  lemma DestroyLinkCommutes(s: NetState, n1: string, n2: string)
    requires n1 in s && n2 in s && Symmetric(s)
    ensures DestroyLinkSpec(s, n2, n1) == DestroyLinkSpec(s, n1, n2)
  {
    if n1 != n2 && n2 in s[n1].links {
      assert n1 in s[n2].links;
      var a := LinkDestroyed(s[n1], n2).0;
      var b := LinkDestroyed(s[n2], n1).0;
      assert s[n1 := a][n2] == s[n2] && s[n2 := b][n1] == s[n1];
      assert DestroyLinkSpec(s, n1, n2).0 == s[n1 := a][n2 := b];
      assert DestroyLinkSpec(s, n2, n1).0 == s[n2 := b][n1 := a];
      UpdatesCommute(s, n1, a, n2, b);
    } else if n1 != n2 && n1 in s[n2].links {
      assert false;
    }
  }

  /** A second `destroyLink` of the same pair finds no link and changes nothing. */
  lemma DestroyLinkIdempotent(s: NetState, n1: string, n2: string)
    requires n1 in s && WellFormed(s)
    ensures var r := DestroyLinkSpec(s, n1, n2).0;
      n1 in r && DestroyLinkSpec(r, n1, n2) == (r, false)
  {
    assert NodeFits(s.Keys, n1, s[n1]);
  }

  /** Changing a link cost leaves the network well formed. */
  lemma ChangeLinkCostWellFormed(s: NetState, n1: string, n2: string, cost: int)
    requires n1 in s && WellFormed(s)
    ensures var r := ChangeLinkCostSpec(s, n1, n2, cost).0;
      r.Keys == s.Keys && WellFormed(r)
  {
    assert NodeFits(s.Keys, n1, s[n1]);
    if n2 in s[n1].links {
      var a := LinkCostChanged(s[n1], n2, cost).0;
      LinkCostChangedFits(s.Keys, n1, s[n1], n2, cost);
      ReplaceFits(s, n1, a);
      var s1 := s[n1 := a];
      assert NodeFits(s.Keys, n2, s1[n2]);
      LinkCostChangedFits(s.Keys, n2, s1[n2], n1, cost);
      ReplaceFits(s1, n2, LinkCostChanged(s1[n2], n1, cost).0);
    }
  }

  /** The two steps of `changeLinkCost` on an existing link, and the link
      maps they leave. */
  lemma ChangeLinkCostSteps(s: NetState, n1: string, n2: string, cost: int)
    requires n1 in s && WellFormed(s) && n2 in s[n1].links
    ensures n2 in s && (n1 in s[n2].links ==> n1 in s[n2].table)
    ensures var a := LinkCostChanged(s[n1], n2, cost).0;
      && a.links == s[n1].links[n2 := cost]
      && (n1 in s[n1 := a][n2].links ==> n1 in s[n1 := a][n2].table)
  {
    assert NodeFits(s.Keys, n1, s[n1]);
    assert NodeFits(s.Keys, n2, s[n2]);
    LinksAfterRecost(s[n1], n2, cost);
  }

  /** Changing a link cost keeps a symmetric network symmetric. */
  lemma ChangeLinkCostSymmetric(s: NetState, n1: string, n2: string, cost: int)
    requires n1 in s && WellFormed(s) && Symmetric(s)
    ensures Symmetric(ChangeLinkCostSpec(s, n1, n2, cost).0)
  {
    if n2 in s[n1].links {
      ChangeLinkCostSteps(s, n1, n2, cost);
      var a := LinkCostChanged(s[n1], n2, cost).0;
      var b := LinkCostChanged(s[n1 := a][n2], n1, cost).0;
      assert n1 in s[n2].links;
      assert n1 in s[n1 := a][n2].links;
      LinksAfterRecost(s[n1 := a][n2], n1, cost);
      RecostKeepsSymmetric(s, n1, n2, cost, a, b);
      assert ChangeLinkCostSpec(s, n1, n2, cost).0 == s[n1 := a][n2 := b];
    }
  }

  /** Changing a link cost leaves the network well formed, and symmetric if
      it was. */
  lemma ChangeLinkCostPreserves(s: NetState, n1: string, n2: string, cost: int)
    requires n1 in s && WellFormed(s)
    ensures var r := ChangeLinkCostSpec(s, n1, n2, cost).0;
      r.Keys == s.Keys && WellFormed(r) && (Symmetric(s) ==> Symmetric(r))
  {
    ChangeLinkCostWellFormed(s, n1, n2, cost);
    if Symmetric(s) {
      ChangeLinkCostSymmetric(s, n1, n2, cost);
    }
  }

  /** For a symmetric network, both ends carry the new cost on the link and
      on their table entry for each other afterwards. */
  lemma ChangeLinkCostBothEnds(s: NetState, n1: string, n2: string, cost: int)
    requires n1 in s && n2 in s && WellFormed(s) && Symmetric(s)
    ensures var (r, ok) := ChangeLinkCostSpec(s, n1, n2, cost);
      && (ok <==> n2 in s[n1].links)
      && (ok ==> r[n1].links[n2] == cost && r[n2].links[n1] == cost)
      && (ok ==> r[n1].table[n2].cost == cost && r[n2].table[n1].cost == cost)
  {
    if n2 in s[n1].links {
      ChangeLinkCostSteps(s, n1, n2, cost);
      assert n1 in s[n2].links;
      var a := LinkCostChanged(s[n1], n2, cost).0;
      assert n1 in s[n1 := a][n2].links;
      var b := LinkCostChanged(s[n1 := a][n2], n1, cost).0;
      assert ChangeLinkCostSpec(s, n1, n2, cost).0 == s[n1 := a][n2 := b];
    }
  }

  /** For a symmetric network, the order of the two names of
      `changeLinkCost` does not matter. */
  lemma ChangeLinkCostCommutes(s: NetState, n1: string, n2: string, cost: int)
    requires n1 in s && n2 in s && WellFormed(s) && Symmetric(s)
    ensures ChangeLinkCostSpec(s, n2, n1, cost) == ChangeLinkCostSpec(s, n1, n2, cost)
  {
    if n1 != n2 && n2 in s[n1].links {
      assert n1 in s[n2].links;
      assert NodeFits(s.Keys, n1, s[n1]) && NodeFits(s.Keys, n2, s[n2]);
      var a := LinkCostChanged(s[n1], n2, cost).0;
      var b := LinkCostChanged(s[n2], n1, cost).0;
      assert s[n1 := a][n2] == s[n2] && s[n2 := b][n1] == s[n1];
      assert ChangeLinkCostSpec(s, n1, n2, cost).0 == s[n1 := a][n2 := b];
      assert ChangeLinkCostSpec(s, n2, n1, cost).0 == s[n2 := b][n1 := a];
      UpdatesCommute(s, n1, a, n2, b);
    } else if n1 != n2 && n1 in s[n2].links {
      assert false;
    }
  }

  // ---------------------------------------------------------------------
  // Events
  // ---------------------------------------------------------------------

  /** What firing one event does: a failure destroys the link, a cost
      change changes its cost. */
  function ApplyEvent(s: NetState, e: NetworkEvent): (r: NetState)
    requires e.node1 in s && WellFormed(s)
    ensures r.Keys == s.Keys && WellFormed(r)
    ensures Symmetric(s) ==> Symmetric(r)
  {
    match e
    case FailureEvent(_, n1, n2) =>
      DestroyLinkPreserves(s, n1, n2);
      assert NodeFits(s.Keys, n1, s[n1]);
      DestroyLinkSpec(s, n1, n2).0
    case CostChangeEvent(_, n1, n2, c) =>
      ChangeLinkCostPreserves(s, n1, n2, c);
      ChangeLinkCostSpec(s, n1, n2, c).0
  }

  /** An event and its swapped twin do the same to a symmetric network. */
  lemma ApplySwappedEvent(s: NetState, e: NetworkEvent)
    requires e.node1 in s && e.node2 in s && WellFormed(s) && Symmetric(s)
    ensures ApplyEvent(s, Swapped(e)) == ApplyEvent(s, e)
  {
    match e
    case FailureEvent(_, n1, n2) => DestroyLinkCommutes(s, n1, n2);
    case CostChangeEvent(_, n1, n2, c) => ChangeLinkCostCommutes(s, n1, n2, c);
  }

  /** The events of `es` fired first to last. */
  function ApplyEvents(s: NetState, es: seq<NetworkEvent>): (r: NetState)
    requires WellFormed(s) && forall i :: 0 <= i < |es| ==> es[i].node1 in s
    ensures r.Keys == s.Keys && WellFormed(r)
    ensures Symmetric(s) ==> Symmetric(r)
    decreases |es|
  {
    if es == [] then s
    else ApplyEvent(ApplyEvents(s, es[..|es| - 1]), es[|es| - 1])
  }

  /** Applying one more event. */
  lemma ApplyEventsSnoc(s: NetState, es: seq<NetworkEvent>, e: NetworkEvent)
    requires WellFormed(s) && (forall i :: 0 <= i < |es| ==> es[i].node1 in s) && e.node1 in s
    ensures forall i :: 0 <= i < |es + [e]| ==> (es + [e])[i].node1 in s
    ensures ApplyEvents(s, es + [e]) == ApplyEvent(ApplyEvents(s, es), e)
  {
    assert (es + [e])[..|es|] == es;
  }

  // ---------------------------------------------------------------------
  // The event loop of a round
  // ---------------------------------------------------------------------

  /** Part way through the event loop of round `k`: of the events queued
      at the start, those of round `k` have either fired or are still
      queued, later ones are all still queued, and only round-`k` events
      have fired. */
  ghost predicate EventsSplit(queued: multiset<NetworkEvent>, fired: seq<NetworkEvent>,
                              events: multiset<NetworkEvent>, k: int)
  {
    && (forall e: NetworkEvent :: e.iteration == k ==> multiset(fired)[e] + events[e] == queued[e])
    && (forall e: NetworkEvent :: e.iteration > k ==> events[e] == queued[e])
    && (forall e: NetworkEvent :: e.iteration != k ==> multiset(fired)[e] == 0)
  }

  /** When a least event is due after round `k`, so are all. */
  lemma LeastIsLater(events: multiset<NetworkEvent>, least: NetworkEvent, k: int)
    requires forall o :: o in events ==> CompareTo(least, o) <= 0
    requires least.iteration > k
    ensures forall e :: e in events ==> e.iteration > k
  {
  }

  /** Dropping a stale event. */
  lemma EventsSplitDrop(queued: multiset<NetworkEvent>, fired: seq<NetworkEvent>,
                        events: multiset<NetworkEvent>, k: int, ev: NetworkEvent)
    requires EventsSplit(queued, fired, events, k) && ev in events && ev.iteration < k
    ensures EventsSplit(queued, fired, events - multiset{ev}, k)
  {
  }

  /** Firing a due event. */
  lemma EventsSplitFire(queued: multiset<NetworkEvent>, fired: seq<NetworkEvent>,
                        events: multiset<NetworkEvent>, k: int, ev: NetworkEvent)
    requires EventsSplit(queued, fired, events, k) && ev in events && ev.iteration == k
    ensures EventsSplit(queued, fired + [ev], events - multiset{ev}, k)
  {
  }

  /** When only later events are left, every due event has fired exactly
      as often as it was queued and every earlier one is gone. */
  lemma EventsSplitDone(queued: multiset<NetworkEvent>, fired: seq<NetworkEvent>,
                        events: multiset<NetworkEvent>, k: int)
    requires EventsSplit(queued, fired, events, k)
    requires forall e :: e in events ==> e.iteration > k
    ensures forall e: NetworkEvent :: multiset(fired)[e] == if e.iteration == k then queued[e] else 0
    ensures forall e: NetworkEvent :: events[e] == if e.iteration > k then queued[e] else 0
  {
  }

  /** The due events of round `k` fired so far, as `fired`, name known
      nodes of the network that was in state `s` before them, and lead it
      to state `cur`. */
  ghost predicate FiredSoFar(s: NetState, fired: seq<NetworkEvent>, cur: NetState, k: int)
  {
    && WellFormed(s)
    && (forall i :: 0 <= i < |fired| ==> fired[i].node1 in s && fired[i].iteration == k)
    && cur == ApplyEvents(s, fired)
  }

  /** Firing one more due event. */
  lemma FiredSoFarSnoc(s: NetState, fired: seq<NetworkEvent>, cur: NetState, k: int, ev: NetworkEvent)
    requires FiredSoFar(s, fired, cur, k) && ev.node1 in s && ev.iteration == k
    ensures WellFormed(cur) && ev.node1 in cur
    ensures FiredSoFar(s, fired + [ev], ApplyEvent(cur, ev), k)
  {
    ApplyEventsSnoc(s, fired, ev);
    forall i | 0 <= i < |fired + [ev]|
      ensures (fired + [ev])[i].iteration == k
    {
      if i < |fired| {
        assert (fired + [ev])[i] == fired[i];
      }
    }
  }

  /** Part way through the event loop of round `k`, on a network that
      was in state `s` before it: the due events still queued name known
      nodes, `fired` holds the due events fired so far and `cur` is the
      state they lead to, the queue has lost exactly the events fired or
      dropped, and once the loop stops only later events are left. */
  ghost predicate Draining(s: NetState, queued: multiset<NetworkEvent>, fired: seq<NetworkEvent>,
                           cur: NetState, events: multiset<NetworkEvent>, k: int, eventsLeft: bool)
  {
    && FiredSoFar(s, fired, cur, k)
    && (forall e :: e in events && e.iteration == k ==> e.node1 in s)
    && EventsSplit(queued, fired, events, k)
    && (!eventsLeft ==> forall e :: e in events ==> e.iteration > k)
  }

  /** Taking an event off the queue shortens it. */
  lemma TakeShortens(events: multiset<NetworkEvent>, ev: NetworkEvent)
    requires ev in events
    ensures |events - multiset{ev}| == |events| - 1
  {
    assert events == (events - multiset{ev}) + multiset{ev};
  }

  /** Dropping a stale head keeps the loop going. */
  lemma DrainingDrop(s: NetState, queued: multiset<NetworkEvent>, fired: seq<NetworkEvent>,
                     cur: NetState, events: multiset<NetworkEvent>, k: int, ev: NetworkEvent)
    requires Draining(s, queued, fired, cur, events, k, true) && ev in events && ev.iteration < k
    ensures Draining(s, queued, fired, cur, events - multiset{ev}, k, true)
  {
    EventsSplitDrop(queued, fired, events, k, ev);
  }

  /** Firing a due head moves it from the queue to `fired`. */
  lemma DrainingFire(s: NetState, queued: multiset<NetworkEvent>, fired: seq<NetworkEvent>,
                     cur: NetState, events: multiset<NetworkEvent>, k: int, ev: NetworkEvent)
    requires Draining(s, queued, fired, cur, events, k, true) && ev in events && ev.iteration == k
    ensures WellFormed(cur) && ev.node1 in cur
    ensures Draining(s, queued, fired + [ev], ApplyEvent(cur, ev), events - multiset{ev}, k, true)
  {
    EventsSplitFire(queued, fired, events, k, ev);
    FiredSoFarSnoc(s, fired, cur, k, ev);
  }

  /** A least head due later stops the loop. */
  lemma DrainingStop(s: NetState, queued: multiset<NetworkEvent>, fired: seq<NetworkEvent>,
                     cur: NetState, events: multiset<NetworkEvent>, k: int, least: NetworkEvent)
    requires Draining(s, queued, fired, cur, events, k, true)
    requires forall o :: o in events ==> CompareTo(least, o) <= 0
    requires least.iteration > k
    ensures Draining(s, queued, fired, cur, events, k, false)
  {
    LeastIsLater(events, least, k);
  }

  /** When the loop has stopped, every due event has fired exactly as
      often as it was queued, every earlier one is gone and every later
      one is still queued. */
  lemma DrainingDone(s: NetState, queued: multiset<NetworkEvent>, fired: seq<NetworkEvent>,
                     cur: NetState, events: multiset<NetworkEvent>, k: int)
    requires Draining(s, queued, fired, cur, events, k, false)
    ensures forall i :: 0 <= i < |fired| ==> fired[i].node1 in s && fired[i].iteration == k
    ensures cur == ApplyEvents(s, fired)
    ensures forall e: NetworkEvent :: multiset(fired)[e] == if e.iteration == k then queued[e] else 0
    ensures forall e: NetworkEvent :: events[e] == if e.iteration > k then queued[e] else 0
  {
    EventsSplitDone(queued, fired, events, k);
  }

  // ---------------------------------------------------------------------
  // One synchronous round of distance-vector updates
  // ---------------------------------------------------------------------

  /** The committed tables of all nodes, by name. */
  function TablesOf(s: NetState): (r: map<string, Table>)
    ensures r.Keys == s.Keys && forall n :: n in s ==> r[n] == s[n].table
  {
    map n | n in s :: s[n].table
  }

  /** For every node an iteration order of its links. */
  ghost predicate OrdersFit(s: NetState, orders: map<string, seq<string>>)
  {
    orders.Keys == s.Keys && forall n :: n in s ==> Enumerates(orders[n], s[n].links.Keys)
  }

  /** In a well-formed network every node can hear all its neighbours. */
  lemma WellFormedHearable(s: NetState)
    requires WellFormed(s)
    ensures forall n :: n in s ==> Hearable(s[n].links, TablesOf(s), s[n].table)
  {
    forall n | n in s
      ensures Hearable(s[n].links, TablesOf(s), s[n].table)
    {
      assert NodeFits(s.Keys, n, s[n]);
      forall b | b in s[n].links
        ensures b in TablesOf(s) && forall d :: d in s[n].table && d != b ==> d in TablesOf(s)[b]
      {
        assert NodeFits(s.Keys, b, s[b]);
      }
    }
  }

  /** In a well-formed network every node can relax against its neighbours
      in any of their iteration orders. */
  lemma WellFormedCanRelax(s: NetState, orders: map<string, seq<string>>)
    requires WellFormed(s) && OrdersFit(s, orders)
    ensures forall n :: n in s ==> CanRelax(orders[n], s[n].links, TablesOf(s), s[n].table)
  {
    WellFormedHearable(s);
    forall n | n in s
      ensures CanRelax(orders[n], s[n].links, TablesOf(s), s[n].table)
    {
      HearableCanRelax(orders[n], s[n].links, TablesOf(s), s[n].table);
    }
  }

  /** The state after a round of `exchange` before events fire: every node
      updates against the tables committed before the round, then all
      commit together; links are untouched. */
  function RoundSpec(s: NetState, splitHorizon: bool, orders: map<string, seq<string>>): NetState
    requires WellFormed(s) && OrdersFit(s, orders)
  {
    WellFormedCanRelax(s, orders);
    map n | n in s ::
      NodeState(UpdatedTable(n, splitHorizon, orders[n], s[n].links, TablesOf(s), s[n].table), s[n].links)
  }

  /** What `exchange` returns: whether any node's update reported a change. */
  ghost predicate RoundChanged(s: NetState, splitHorizon: bool, orders: map<string, seq<string>>)
    requires WellFormed(s) && OrdersFit(s, orders)
  {
    WellFormedCanRelax(s, orders);
    exists n :: n in s && Changed(n, splitHorizon, orders[n], s[n].links, TablesOf(s), s[n].table)
  }

  /** Iteration orders for some of the nodes. */
  ghost predicate PartlyFits(s: NetState, orders: map<string, seq<string>>)
  {
    orders.Keys <= s.Keys && forall n :: n in orders ==> Enumerates(orders[n], s[n].links.Keys)
  }

  /** One node's update in a round: its new working table and whether it
      reported a change. */
  ghost function NodeUpdate(s: NetState, splitHorizon: bool, n: string, order: seq<string>): (Table, bool)
    requires WellFormed(s) && n in s && Enumerates(order, s[n].links.Keys)
  {
    WellFormedHearable(s);
    HearableCanRelax(order, s[n].links, TablesOf(s), s[n].table);
    (UpdatedTable(n, splitHorizon, order, s[n].links, TablesOf(s), s[n].table),
     Changed(n, splitHorizon, order, s[n].links, TablesOf(s), s[n].table))
  }

  /** Whether any of the nodes updated so far reported a change. */
  ghost predicate SomeChanged(s: NetState, splitHorizon: bool, orders: map<string, seq<string>>)
    requires WellFormed(s) && PartlyFits(s, orders)
  {
    exists n :: n in orders && NodeUpdate(s, splitHorizon, n, orders[n]).1
  }

  /** Updating one more node adds its report to those so far. */
  lemma SomeChangedStep(s: NetState, splitHorizon: bool, orders: map<string, seq<string>>,
                        n: string, order: seq<string>)
    requires WellFormed(s) && PartlyFits(s, orders) && n in s && n !in orders
    requires Enumerates(order, s[n].links.Keys)
    ensures PartlyFits(s, orders[n := order])
    ensures SomeChanged(s, splitHorizon, orders[n := order])
        <==> SomeChanged(s, splitHorizon, orders) || NodeUpdate(s, splitHorizon, n, order).1
  {
    SomeChangedKept(s, splitHorizon, orders, n, order);
    SomeChangedNew(s, splitHorizon, orders, n, order);
  }

  /** A report among the earlier nodes, or by the new one, stays a report. */
  lemma SomeChangedKept(s: NetState, splitHorizon: bool, orders: map<string, seq<string>>,
                        n: string, order: seq<string>)
    requires WellFormed(s) && PartlyFits(s, orders) && n in s && n !in orders
    requires Enumerates(order, s[n].links.Keys)
    ensures PartlyFits(s, orders[n := order])
    ensures SomeChanged(s, splitHorizon, orders) || NodeUpdate(s, splitHorizon, n, order).1
        ==> SomeChanged(s, splitHorizon, orders[n := order])
  {
    var o2 := orders[n := order];
    assert PartlyFits(s, o2);
    if SomeChanged(s, splitHorizon, orders) {
      var m :| m in orders && NodeUpdate(s, splitHorizon, m, orders[m]).1;
      assert m in o2 && o2[m] == orders[m];
      assert NodeUpdate(s, splitHorizon, m, o2[m]).1;
    } else if NodeUpdate(s, splitHorizon, n, order).1 {
      assert n in o2 && o2[n] == order;
      assert NodeUpdate(s, splitHorizon, n, o2[n]).1;
    }
  }

  /** A report after the step is an earlier one or the new node's. */
  lemma SomeChangedNew(s: NetState, splitHorizon: bool, orders: map<string, seq<string>>,
                       n: string, order: seq<string>)
    requires WellFormed(s) && PartlyFits(s, orders) && n in s && n !in orders
    requires Enumerates(order, s[n].links.Keys)
    ensures PartlyFits(s, orders[n := order])
    ensures SomeChanged(s, splitHorizon, orders[n := order])
        ==> SomeChanged(s, splitHorizon, orders) || NodeUpdate(s, splitHorizon, n, order).1
  {
    var o2 := orders[n := order];
    if SomeChanged(s, splitHorizon, o2) && !NodeUpdate(s, splitHorizon, n, order).1 {
      var m :| m in o2 && NodeUpdate(s, splitHorizon, m, o2[m]).1;
      assert m != n && o2[m] == orders[m];
    }
  }

  /** The working tables `temps` are the updates of the nodes in `orders`. */
  ghost predicate TempsFit(s: NetState, splitHorizon: bool, orders: map<string, seq<string>>,
                           temps: map<string, Table>)
    requires WellFormed(s) && PartlyFits(s, orders)
  {
    temps.Keys == orders.Keys && forall n :: n in orders ==> temps[n] == NodeUpdate(s, splitHorizon, n, orders[n]).0
  }

  /** Two maps with the same keys keep the same keys when one more key is
      added to both. */
  lemma SameKeysStep<A, B>(x: map<string, A>, y: map<string, B>, n: string, a: A, b: B)
    requires x.Keys == y.Keys
    ensures x[n := a].Keys == y[n := b].Keys
  {
  }

  /** Recording one more node's update. */
  lemma TempsFitStep(s: NetState, splitHorizon: bool, orders: map<string, seq<string>>,
                     temps: map<string, Table>, n: string, order: seq<string>, t: Table)
    requires WellFormed(s) && PartlyFits(s, orders) && TempsFit(s, splitHorizon, orders, temps)
    requires n in s && n !in orders && Enumerates(order, s[n].links.Keys)
    requires t == NodeUpdate(s, splitHorizon, n, order).0
    ensures PartlyFits(s, orders[n := order])
    ensures TempsFit(s, splitHorizon, orders[n := order], temps[n := t])
  {
    var o2 := orders[n := order];
    var t2 := temps[n := t];
    SameKeysStep(temps, orders, n, t, order);
    assert PartlyFits(s, o2);
    forall m | m in o2
      ensures t2[m] == NodeUpdate(s, splitHorizon, m, o2[m]).0
    {
      if m == n {
        assert o2[m] == order && t2[m] == t;
      } else {
        assert m in orders && o2[m] == orders[m] && t2[m] == temps[m];
      }
    }
  }

  /** Part way through a round: the nodes named in `orders` are updated,
      with those iteration orders, working tables `temps`, and `change`
      telling whether any of them reported a change. */
  ghost predicate RoundProgress(s: NetState, splitHorizon: bool, orders: map<string, seq<string>>,
                                temps: map<string, Table>, change: bool)
  {
    && WellFormed(s) && PartlyFits(s, orders)
    && TempsFit(s, splitHorizon, orders, temps)
    && change == SomeChanged(s, splitHorizon, orders)
  }

  /** Before any node is updated. */
  lemma RoundProgressStart(s: NetState, splitHorizon: bool)
    requires WellFormed(s)
    ensures RoundProgress(s, splitHorizon, map[], map[], false)
  {
  }

  /** Updating one more node makes progress. */
  lemma RoundProgressStep(s: NetState, splitHorizon: bool,
                          orders: map<string, seq<string>>, temps: map<string, Table>, change: bool,
                          n: string, order: seq<string>, t: Table, c: bool)
    requires RoundProgress(s, splitHorizon, orders, temps, change)
    requires n in s && n !in orders && Enumerates(order, s[n].links.Keys)
    requires (t, c) == NodeUpdate(s, splitHorizon, n, order)
    ensures RoundProgress(s, splitHorizon, orders[n := order], temps[n := t], change || c)
    ensures orders[n := order].Keys == orders.Keys + {n}
  {
    TempsFitStep(s, splitHorizon, orders, temps, n, order, t);
    SomeChangedStep(s, splitHorizon, orders, n, order);
  }

  /** Once every node is updated, the updates are the round. */
  lemma RoundFromUpdates(s: NetState, splitHorizon: bool, orders: map<string, seq<string>>,
                         temps: map<string, Table>, change: bool)
    requires RoundProgress(s, splitHorizon, orders, temps, change) && orders.Keys == s.Keys
    ensures OrdersFit(s, orders)
    ensures change == RoundChanged(s, splitHorizon, orders)
    ensures temps == TablesOf(RoundSpec(s, splitHorizon, orders))
  {
    RoundTablesFrom(s, splitHorizon, orders, temps);
    RoundChangedFrom(s, splitHorizon, orders);
  }

  /** The working tables of a finished round are the round's tables. */
  lemma RoundTablesFrom(s: NetState, splitHorizon: bool, orders: map<string, seq<string>>,
                        temps: map<string, Table>)
    requires WellFormed(s) && OrdersFit(s, orders)
    requires TempsFit(s, splitHorizon, orders, temps)
    ensures temps == TablesOf(RoundSpec(s, splitHorizon, orders))
  {
  }

  /** A finished round reports a change when some node did. */
  lemma RoundChangedFrom(s: NetState, splitHorizon: bool, orders: map<string, seq<string>>)
    requires WellFormed(s) && OrdersFit(s, orders)
    ensures SomeChanged(s, splitHorizon, orders) == RoundChanged(s, splitHorizon, orders)
  {
  }

  /** A round keeps the node names, every link and every table's
      destinations, and so keeps the network well formed and symmetric. */
  lemma RoundPreserves(s: NetState, splitHorizon: bool, orders: map<string, seq<string>>)
    requires WellFormed(s) && OrdersFit(s, orders)
    ensures var r := RoundSpec(s, splitHorizon, orders);
      && r.Keys == s.Keys
      && (forall n :: n in s ==> r[n].links == s[n].links && r[n].table.Keys == s[n].table.Keys)
      && WellFormed(r)
      && (Symmetric(s) ==> Symmetric(r))
  {
    var r := RoundSpec(s, splitHorizon, orders);
    WellFormedCanRelax(s, orders);
    forall n | n in s
      ensures r[n].links == s[n].links && r[n].table.Keys == s[n].table.Keys
      ensures NodeFits(s.Keys, n, r[n])
    {
      assert NodeFits(s.Keys, n, s[n]);
      UpdatedHopsAreNeighbours(n, splitHorizon, orders[n], s[n].links, TablesOf(s), s[n].table);
    }
  }

  /** A round in which no node reports a change leaves every table as it
      was: the network has converged. */
  lemma StableRoundIsFixpoint(s: NetState, splitHorizon: bool, orders: map<string, seq<string>>)
    requires WellFormed(s) && OrdersFit(s, orders)
    requires !RoundChanged(s, splitHorizon, orders)
    ensures RoundSpec(s, splitHorizon, orders) == s
  {
    var r := RoundSpec(s, splitHorizon, orders);
    WellFormedCanRelax(s, orders);
    forall n | n in s
      ensures r[n] == s[n]
    {
      assert !Changed(n, splitHorizon, orders[n], s[n].links, TablesOf(s), s[n].table);
      UnchangedUpdateKeepsTable(n, splitHorizon, orders[n], s[n].links, TablesOf(s), s[n].table);
    }
  }

  /** After a round, a route of `n` to `d` through neighbour `b` (not
      ignored under split horizon) costs exactly what `b` advertised for
      `d` before the round plus the link cost to `b`. */
  lemma RoundRoutesMatchAdverts(s: NetState, splitHorizon: bool, orders: map<string, seq<string>>,
                                n: string, d: string, b: string)
    requires WellFormed(s) && OrdersFit(s, orders)
    requires n in s && d in s[n].table && b in s[n].links && d != b
    requires NodeFits(s.Keys, b, s[b]) && !Skipped(n, splitHorizon, b, s[b].table, d)
    requires RoundSpec(s, splitHorizon, orders)[n].table[d].hop == Some(b)
    ensures RoundSpec(s, splitHorizon, orders)[n].table[d].cost == s[b].table[d].cost + s[n].links[b]
  {
    WellFormedCanRelax(s, orders);
    var order := orders[n];
    var i :| 0 <= i < |order| && order[i] == b;
    UpdatedRoutesMatchAdverts(n, splitHorizon, order, s[n].links, TablesOf(s), s[n].table, d, i);
  }

  // ---------------------------------------------------------------------
  // Construction
  // ---------------------------------------------------------------------

  /** A link line of the input: the two node names and the link cost. */
  datatype LinkLine = LinkLine(node1: string, node2: string, cost: int)

  /** Whether a line joins `a` and `d`, in either order. */
  predicate Joins(l: LinkLine, a: string, d: string)
  {
    (l.node1 == a && l.node2 == d) || (l.node2 == a && l.node1 == d)
  }

  /** Every line names two of the given nodes. */
  ghost predicate LinesKnown(names: set<string>, lines: seq<LinkLine>)
  {
    forall i :: 0 <= i < |lines| ==> lines[i].node1 in names && lines[i].node2 in names
  }

  /** One node of each name, with no links and an empty table. */
  function Fresh(names: seq<string>): (r: NetState)
    ensures r.Keys == set i | 0 <= i < |names| :: names[i]
    ensures forall n :: n in r ==> r[n] == NodeState(map[], map[])
  {
    map n | n in names :: NodeState(map[], map[])
  }

  /** One line of the input installed: `addLink` at the first node, then at the second. */
  function Linked(s: NetState, l: LinkLine): NetState
    requires l.node1 in s && l.node2 in s
  {
    var s1 := s[l.node1 := LinkAdded(s[l.node1], l.node2, l.cost)];
    s1[l.node2 := LinkAdded(s1[l.node2], l.node1, l.cost)]
  }

  /** The lines installed first to last. */
  function Installed(s: NetState, lines: seq<LinkLine>): (r: NetState)
    requires LinesKnown(s.Keys, lines)
    ensures r.Keys == s.Keys
    decreases |lines|
  {
    if lines == [] then s
    else Linked(Installed(s, lines[..|lines| - 1]), lines[|lines| - 1])
  }

  /** `initialiseTable` run at every node with the whole node set. */
  function InitialisedAll(s: NetState): (r: NetState)
    ensures r.Keys == s.Keys
  {
    map n | n in s :: NodeState(Initialised(s[n].table, n, s.Keys), s[n].links)
  }

  /** The network the constructor builds from its node names and link lines. */
  function Built(names: seq<string>, lines: seq<LinkLine>): NetState
    requires LinesKnown(set i | 0 <= i < |names| :: names[i], lines)
  {
    InitialisedAll(Installed(Fresh(names), lines))
  }

  /** The cost of the last line joining `a` and `d`, if any. */
  function LastCost(lines: seq<LinkLine>, a: string, d: string): Option<int>
    decreases |lines|
  {
    if lines == [] then None
    else if Joins(lines[|lines| - 1], a, d) then Some(lines[|lines| - 1].cost)
    else LastCost(lines[..|lines| - 1], a, d)
  }

  /** The table that knows exactly the direct routes over `links`. */
  function DirectRoutes(links: Links): (t: Table)
    ensures t.Keys == links.Keys && forall d :: d in t ==> t[d] == Entry(links[d], Some(d))
  {
    map d | d in links :: Entry(links[d], Some(d))
  }

  /** Every node knows exactly its direct routes. */
  ghost predicate DirectOnly(p: NetState)
  {
    forall a :: a in p ==> p[a].table == DirectRoutes(p[a].links)
  }

  /** Every node links exactly to the nodes the lines joined it to, at the
      cost of the last line joining them. */
  ghost predicate LinksFrom(p: NetState, lines: seq<LinkLine>)
  {
    forall a, d :: a in p ==>
      (d in p[a].links <==> LastCost(lines, a, d).Some?)
      && (d in p[a].links ==> p[a].links[d] == LastCost(lines, a, d).value)
  }

  /** After installing lines into link-less nodes, every node links exactly
      to the nodes some line joined it to, at the cost of the last such line,
      and knows exactly the direct routes over its links. */
  lemma {:induction false} InstalledLinks(s: NetState, lines: seq<LinkLine>)
    requires LinesKnown(s.Keys, lines)
    requires forall n :: n in s ==> s[n] == NodeState(map[], map[])
    ensures DirectOnly(Installed(s, lines)) && LinksFrom(Installed(s, lines), lines)
    decreases |lines|
  {
    if lines != [] {
      var front := lines[..|lines| - 1];
      assert LinesKnown(s.Keys, front) by {
        forall i | 0 <= i < |front|
          ensures front[i].node1 in s.Keys && front[i].node2 in s.Keys
        {
          assert front[i] == lines[i];
        }
      }
      InstalledLinks(s, front);
      var p := Installed(s, front);
      var l := lines[|lines| - 1];
      var r := Installed(s, lines);
      assert r == Linked(p, l);
      LinkedLinks(p, l);
      forall a, d | a in r
        ensures (d in r[a].links <==> LastCost(lines, a, d).Some?)
                && (d in r[a].links ==> r[a].links[d] == LastCost(lines, a, d).value)
      {
        if !Joins(l, a, d) {
          assert LastCost(lines, a, d) == LastCost(front, a, d);
        }
      }
    }
  }

  /** Adding a link to a node that knows exactly its direct routes keeps it so. */
  lemma LinkAddedDirect(s: NodeState, target: string, cost: int)
    requires s.table == DirectRoutes(s.links)
    ensures LinkAdded(s, target, cost).table == DirectRoutes(LinkAdded(s, target, cost).links)
  {
    var r := LinkAdded(s, target, cost);
    assert r.table.Keys == DirectRoutes(r.links).Keys;
  }

  /** Installing one line adds the link, in both directions, at its cost,
      and keeps every node knowing exactly its direct routes. */
  lemma LinkedLinks(p: NetState, l: LinkLine)
    requires l.node1 in p && l.node2 in p
    requires DirectOnly(p)
    ensures DirectOnly(Linked(p, l))
    ensures var r := Linked(p, l);
      forall a :: a in r ==>
        forall d :: (d in r[a].links <==> d in p[a].links || Joins(l, a, d))
                       && (d in r[a].links ==> r[a].links[d] == if Joins(l, a, d) then l.cost else p[a].links[d])
  {
    var s1 := p[l.node1 := LinkAdded(p[l.node1], l.node2, l.cost)];
    LinkAddedDirect(p[l.node1], l.node2, l.cost);
    assert DirectOnly(s1);
    LinkAddedDirect(s1[l.node2], l.node1, l.cost);
    forall a | a in Linked(p, l)
      ensures forall d :: (d in Linked(p, l)[a].links <==> d in p[a].links || Joins(l, a, d))
                       && (d in Linked(p, l)[a].links ==>
                             Linked(p, l)[a].links[d] == if Joins(l, a, d) then l.cost else p[a].links[d])
    {
      LinkedAt(p, l, a);
    }
  }

  /** The links of one node once a line is installed. */
  lemma LinkedAt(p: NetState, l: LinkLine, a: string)
    requires l.node1 in p && l.node2 in p && a in p
    ensures var links := Linked(p, l)[a].links;
      forall d :: (d in links <==> d in p[a].links || Joins(l, a, d))
                  && (d in links ==> links[d] == if Joins(l, a, d) then l.cost else p[a].links[d])
  {
    var s1 := p[l.node1 := LinkAdded(p[l.node1], l.node2, l.cost)];
    if a != l.node1 && a != l.node2 {
      assert Linked(p, l)[a] == p[a];
    } else if a != l.node2 {
      assert Linked(p, l)[a] == s1[a];
    } else {
      assert Linked(p, l)[a] == LinkAdded(s1[a], l.node1, l.cost);
    }
  }

  /** Initialising the tables of nodes that know only their direct routes
      over links to known nodes gives a well-formed network in which each
      node's entry for a node it links to is the direct link and every
      other entry is unreachable. */
  lemma InitialisedFits(p: NetState)
    requires DirectOnly(p) && forall a :: a in p ==> p[a].links.Keys <= p.Keys
    ensures var r := InitialisedAll(p);
      && WellFormed(r) && (forall a :: a in p ==> r[a].links == p[a].links)
      && forall a, d :: a in r && d in r && (d != a || d in r[a].links) ==>
           d in r[a].table
           && r[a].table[d] == if d in p[a].links then Entry(p[a].links[d], Some(d)) else Unreachable()
  {
    var r := InitialisedAll(p);
    forall a | a in r
      ensures NodeFits(r.Keys, a, r[a])
    {
      assert p[a].table == DirectRoutes(p[a].links);
    }
    forall a, d | a in r && d in r && (d != a || d in r[a].links)
      ensures d in r[a].table
      ensures r[a].table[d] == if d in p[a].links then Entry(p[a].links[d], Some(d)) else Unreachable()
    {
      assert p[a].table == DirectRoutes(p[a].links);
    }
  }

  /** Links installed from lines naming known nodes go to known nodes and
      are symmetric. */
  lemma LinksFromSymmetric(p: NetState, lines: seq<LinkLine>)
    requires LinksFrom(p, lines) && LinesKnown(p.Keys, lines)
    ensures forall a :: a in p ==> p[a].links.Keys <= p.Keys
    ensures Symmetric(p)
  {
    forall a, d | a in p && d in p[a].links
      ensures d in p
    {
      LastCostKnown(p.Keys, lines, a, d);
    }
    forall a, b | a in p && b in p[a].links
      ensures b in p && a in p[b].links && p[b].links[a] == p[a].links[b]
    {
      LastCostSymmetric(lines, a, b);
      LastCostKnown(p.Keys, lines, a, b);
    }
  }

  /** A freshly built network is well formed and symmetric, has one node per
      name, and each node's entry for another node (or for itself, over a
      self-link) is the direct link of the last line joining them, or
      unreachable when no line did. */
  lemma BuiltShape(names: seq<string>, lines: seq<LinkLine>)
    requires LinesKnown(set i | 0 <= i < |names| :: names[i], lines)
    ensures var r := Built(names, lines);
      && r.Keys == (set i | 0 <= i < |names| :: names[i])
      && WellFormed(r) && Symmetric(r)
      && forall a, d :: a in r && d in r && (d != a || d in r[a].links) ==>
           d in r[a].table
           && r[a].table[d] == match LastCost(lines, a, d)
                               case Some(c) => Entry(c, Some(d))
                               case None => Unreachable()
  {
    var f := Fresh(names);
    InstalledLinks(f, lines);
    var p := Installed(f, lines);
    LinksFromSymmetric(p, lines);
    InitialisedFits(p);
    var r := InitialisedAll(p);
    assert r == Built(names, lines);
    SymmetricSameLinks(p, r);
  }

  /** A line joining `a` to `d` names `d` as a node. */
  lemma {:induction false} LastCostKnown(names: set<string>, lines: seq<LinkLine>, a: string, d: string)
    requires LinesKnown(names, lines) && LastCost(lines, a, d).Some?
    ensures d in names
    decreases |lines|
  {
    if !Joins(lines[|lines| - 1], a, d) {
      var front := lines[..|lines| - 1];
      assert LinesKnown(names, front) by {
        forall i | 0 <= i < |front|
          ensures front[i].node1 in names && front[i].node2 in names
        {
          assert front[i] == lines[i];
        }
      }
      LastCostKnown(names, front, a, d);
    }
  }

  /** The last line joining `a` and `b` is the last line joining `b` and `a`. */
  lemma {:induction false} LastCostSymmetric(lines: seq<LinkLine>, a: string, b: string)
    ensures LastCost(lines, a, b) == LastCost(lines, b, a)
    decreases |lines|
  {
    if lines != [] {
      LastCostSymmetric(lines[..|lines| - 1], a, b);
    }
  }

  // ---------------------------------------------------------------------
  // Route tracing
  // ---------------------------------------------------------------------

  /** Every node other than `d` has an entry for `d`, whose next hop is a node. */
  ghost predicate HopsKnown(s: NetState, d: string)
  {
    forall n :: n in s && n != d ==>
      d in s[n].table && (s[n].table[d].hop.Some? ==> s[n].table[d].hop.value in s)
  }

  /** In a well-formed network the hops towards every node are known. */
  lemma WellFormedHopsKnown(s: NetState, d: string)
    requires WellFormed(s) && d in s
    ensures HopsKnown(s, d)
  {
    forall n | n in s && n != d
      ensures d in s[n].table && (s[n].table[d].hop.Some? ==> s[n].table[d].hop.value in s)
    {
      assert NodeFits(s.Keys, n, s[n]);
    }
  }

  /** `p` follows next hops towards `d`: each element but the last is a
      node other than `d` whose next hop is the element after it. */
  ghost predicate Chain(s: NetState, d: string, p: seq<string>)
  {
    && |p| > 0
    && (forall i :: 0 <= i < |p| ==> p[i] in s)
    && forall i :: 0 <= i < |p| - 1 ==>
         p[i] != d && d in s[p[i]].table && s[p[i]].table[d].hop == Some(p[i + 1])
  }

  /** Where following next hops with bounded fuel ends: at the destination,
      at a node with no next hop, or with the fuel used up. */
  datatype Walked = Arrived(path: seq<string>) | Stuck(path: seq<string>) | Looping

  /** The walk of `traceRoute` from `cursor` towards `d`, taking at most
      `fuel` hops. */
  function Walk(s: NetState, cursor: string, d: string, fuel: nat): Walked
    requires cursor in s && HopsKnown(s, d)
    decreases fuel
  {
    if cursor == d then Arrived([cursor])
    else if fuel == 0 then Looping
    else
      match s[cursor].table[d].hop
      case None => Stuck([cursor])
      case Some(h) =>
        match Walk(s, h, d, fuel - 1)
        case Arrived(p) => Arrived([cursor] + p)
        case Stuck(p) => Stuck([cursor] + p)
        case Looping => Looping
  }

  /** A walk that ends follows next hops from where it started, taking no
      more hops than its fuel; at the destination if it arrived, at a node
      other than the destination without a next hop if it got stuck. */
  lemma {:induction false} WalkShape(s: NetState, cursor: string, d: string, fuel: nat)
    requires cursor in s && HopsKnown(s, d)
    ensures var w := Walk(s, cursor, d, fuel);
      && (!w.Looping? ==> Chain(s, d, w.path) && w.path[0] == cursor && |w.path| <= fuel + 1)
      && (w.Arrived? ==> w.path[|w.path| - 1] == d)
      && (w.Stuck? ==> w.path[|w.path| - 1] != d && s[w.path[|w.path| - 1]].table[d].hop.None?)
    decreases fuel
  {
    if cursor != d && fuel > 0 && s[cursor].table[d].hop.Some? {
      WalkShape(s, s[cursor].table[d].hop.value, d, fuel - 1);
    }
  }

  /** What `traceRoute` reports: the path and start's table cost for the
      destination, or no route; `Unfinished` where the fuel ran out. */
  datatype Route = Found(path: seq<string>, cost: int) | NoRoute | Unfinished

  /** The report of `traceRoute(start, d)` with `fuel` hops. */
  function TraceSpec(s: NetState, start: string, d: string, fuel: nat): Route
    requires start in s && d in s[start].table && HopsKnown(s, d)
  {
    match Walk(s, start, d, fuel)
    case Arrived(p) => Found(p, s[start].table[d].cost)
    case Stuck(_) => NoRoute
    case Looping => Unfinished
  }

  /** The walk from a node is determined by the node: two positions of a
      chain holding the same node are followed by the same nodes. */
  lemma {:induction false} ChainDeterministic(s: NetState, d: string, p: seq<string>, i: nat, j: nat, t: nat)
    requires Chain(s, d, p) && i < j && j + t < |p| && p[i] == p[j]
    ensures p[i + t] == p[j + t]
    decreases t
  {
    if t > 0 {
      ChainDeterministic(s, d, p, i, j, t - 1);
      assert s[p[i + t - 1]].table[d].hop == Some(p[i + t]);
    }
  }

  /** Each element of a chain but the last is followed by its next hop. */
  lemma ChainStep(s: NetState, d: string, p: seq<string>, k: nat)
    requires Chain(s, d, p) && k < |p| - 1
    ensures p[k] != d && d in s[p[k]].table && s[p[k]].table[d].hop == Some(p[k + 1])
  {
  }

  /** A chain that ends where the walk stops (at `d`, or at a node without a
      next hop) never visits a node twice. */
  lemma ChainEndingDistinct(s: NetState, d: string, p: seq<string>)
    requires Chain(s, d, p)
    requires var x := p[|p| - 1]; x == d || (d in s[x].table && s[x].table[d].hop.None?)
    ensures Distinct(p)
  {
    forall i, j | 0 <= i < j < |p|
      ensures p[i] != p[j]
    {
      if p[i] == p[j] {
        var t := |p| - 1 - j;
        ChainDeterministic(s, d, p, i, j, t);
        ChainStep(s, d, p, i + t);
        assert false;
      }
    }
  }

  /** A sequence without repeats drawn from a set is no longer than the set. */
  lemma {:induction false} DistinctBounded(p: seq<string>, names: set<string>)
    requires Distinct(p) && forall i :: 0 <= i < |p| ==> p[i] in names
    ensures |p| <= |names|
    decreases |p|
  {
    if |p| > 0 {
      var x := p[|p| - 1];
      var front := p[..|p| - 1];
      assert forall i :: 0 <= i < |front| ==> front[i] in names - {x} by {
        forall i | 0 <= i < |front|
          ensures front[i] in names - {x}
        {
          assert front[i] == p[i] && i < |p| - 1;
        }
      }
      DistinctBounded(front, names - {x});
    }
  }

  /** More fuel does not change a walk that ended without running out. */
  lemma {:induction false} WalkFuelMonotone(s: NetState, cursor: string, d: string, fuel: nat, more: nat)
    requires cursor in s && HopsKnown(s, d) && fuel <= more
    requires !Walk(s, cursor, d, fuel).Looping?
    ensures Walk(s, cursor, d, more) == Walk(s, cursor, d, fuel)
    decreases fuel
  {
    if cursor != d && s[cursor].table[d].hop.Some? {
      WalkFuelMonotone(s, s[cursor].table[d].hop.value, d, fuel - 1, more - 1);
    }
  }

  /** A walk that ended on a path of `k` nodes ends the same way with any
      fuel of at least `k`. */
  lemma {:induction false} WalkFuelEnough(s: NetState, cursor: string, d: string, fuel: nat, more: nat)
    requires cursor in s && HopsKnown(s, d)
    requires !Walk(s, cursor, d, more).Looping? && |Walk(s, cursor, d, more).path| <= fuel
    ensures Walk(s, cursor, d, fuel) == Walk(s, cursor, d, more)
    decreases fuel
  {
    if cursor != d && s[cursor].table[d].hop.Some? {
      var h := s[cursor].table[d].hop.value;
      assert Walk(s, cursor, d, more).path == [cursor] + Walk(s, h, d, more - 1).path;
      WalkFuelEnough(s, h, d, fuel - 1, more - 1);
    }
  }

  /** A walk that still has not ended after as many hops as there are nodes
      never ends: `traceRoute`, which has no fuel, loops forever; and a walk
      given that much fuel has ended whenever any walk does. */
  lemma WalkLoopsForever(s: NetState, cursor: string, d: string, fuel: nat, more: nat)
    requires cursor in s && HopsKnown(s, d) && |s| <= fuel <= more
    requires Walk(s, cursor, d, fuel).Looping?
    ensures Walk(s, cursor, d, more).Looping?
  {
    var w := Walk(s, cursor, d, more);
    if !w.Looping? {
      WalkShape(s, cursor, d, more);
      ChainEndingDistinct(s, d, w.path);
      DistinctBounded(w.path, s.Keys);
      WalkFuelEnough(s, cursor, d, fuel, more);
    }
  }

  /** Prefixing the nodes walked before reaching where `w` started. */
  function Prepend(p: seq<string>, w: Walked): (r: Walked)
    ensures r.Looping? == w.Looping? && r.Arrived? == w.Arrived?
    ensures !w.Looping? ==> r.path == p + w.path
  {
    match w
    case Arrived(q) => Arrived(p + q)
    case Stuck(q) => Stuck(p + q)
    case Looping => Looping
  }

  /** One hop of the walk: from a node other than `d` with a next hop, the
      walk is that node followed by the walk from the hop, with one hop less. */
  lemma WalkStep(s: NetState, p: seq<string>, cursor: string, d: string, fuel: nat)
    requires cursor in s && HopsKnown(s, d) && cursor != d && fuel > 0
    requires s[cursor].table[d].hop.Some?
    ensures var h := s[cursor].table[d].hop.value;
      h in s && Prepend(p, Walk(s, cursor, d, fuel)) == Prepend(p + [cursor], Walk(s, h, d, fuel - 1))
  {
    var w := Walk(s, s[cursor].table[d].hop.value, d, fuel - 1);
    if !w.Looping? {
      assert p + ([cursor] + w.path) == p + [cursor] + w.path;
    }
  }

  /** Nothing walked yet. */
  lemma PrependNothing(w: Walked)
    ensures Prepend([], w) == w
  {
    if !w.Looping? {
      assert [] + w.path == w.path;
    }
  }

  /** Part way along the walk from `start`, having walked `walked` and now
      at `cursor` with `fuel` hops left. */
  ghost predicate WalkedTo(s: NetState, start: string, d: string, fuel: nat,
                           walked: seq<string>, cursor: string, left: nat)
    requires start in s && cursor in s && HopsKnown(s, d)
  {
    Walk(s, start, d, fuel) == Prepend(walked, Walk(s, cursor, d, left))
  }

  /** Taking one more hop along the walk. */
  lemma WalkedOn(s: NetState, start: string, d: string, fuel: nat,
                 walked: seq<string>, cursor: string, left: nat)
    requires start in s && cursor in s && HopsKnown(s, d)
    requires WalkedTo(s, start, d, fuel, walked, cursor, left) && cursor != d && left > 0
    requires s[cursor].table[d].hop.Some?
    ensures s[cursor].table[d].hop.value in s
    ensures WalkedTo(s, start, d, fuel, walked + [cursor], s[cursor].table[d].hop.value, left - 1)
  {
    WalkStep(s, walked, cursor, d, left);
  }

  /** Reaching the destination: the route is the path walked, with the
      start's cost for the destination. */
  lemma TraceArrives(s: NetState, start: string, d: string, fuel: nat,
                     walked: seq<string>, cursor: string, left: nat)
    requires start in s && d in s[start].table && cursor in s && HopsKnown(s, d)
    requires WalkedTo(s, start, d, fuel, walked, cursor, left) && cursor == d
    ensures TraceSpec(s, start, d, fuel) == Found(walked + [cursor], s[start].table[d].cost)
  {
  }

  /** Running out of hops away from the destination. */
  lemma TraceRunsOut(s: NetState, start: string, d: string, fuel: nat,
                     walked: seq<string>, cursor: string)
    requires start in s && d in s[start].table && cursor in s && HopsKnown(s, d)
    requires WalkedTo(s, start, d, fuel, walked, cursor, 0) && cursor != d
    ensures TraceSpec(s, start, d, fuel) == Unfinished
  {
  }

  /** Reaching a node other than the destination without a next hop. */
  lemma TraceStuck(s: NetState, start: string, d: string, fuel: nat,
                   walked: seq<string>, cursor: string, left: nat)
    requires start in s && d in s[start].table && cursor in s && HopsKnown(s, d)
    requires WalkedTo(s, start, d, fuel, walked, cursor, left) && cursor != d && left > 0
    requires s[cursor].table[d].hop.None?
    ensures TraceSpec(s, start, d, fuel) == NoRoute
  {
  }

  /** A route `traceRoute` reports runs from the start to the destination by
      following next hops, never visits a node twice (so takes fewer hops
      than there are nodes), and costs what the start's table says. */
  lemma TraceFoundIsRoute(s: NetState, start: string, d: string, fuel: nat)
    requires start in s && d in s[start].table && HopsKnown(s, d)
    requires TraceSpec(s, start, d, fuel).Found?
    ensures var r := TraceSpec(s, start, d, fuel);
      && Chain(s, d, r.path) && r.path[0] == start && r.path[|r.path| - 1] == d
      && Distinct(r.path) && |r.path| <= |s|
      && r.cost == s[start].table[d].cost
  {
    var p := Walk(s, start, d, fuel).path;
    WalkShape(s, start, d, fuel);
    ChainEndingDistinct(s, d, p);
    DistinctBounded(p, s.Keys);
  }

  /** `traceRoute` reports no route exactly when following next hops from
      the start reaches a node other than the destination that has none. */
  lemma TraceNoRoute(s: NetState, start: string, d: string, fuel: nat)
    requires start in s && d in s[start].table && HopsKnown(s, d)
    requires TraceSpec(s, start, d, fuel).NoRoute?
    ensures var p := Walk(s, start, d, fuel).path;
      && Chain(s, d, p) && p[0] == start
      && p[|p| - 1] != d && s[p[|p| - 1]].table[d].hop.None?
      && Distinct(p)
  {
    WalkShape(s, start, d, fuel);
    ChainEndingDistinct(s, d, Walk(s, start, d, fuel).path);
  }

  /** Fuel of one hop per node decides every trace: with that much, the
      report is the one any larger fuel gives, and an unfinished one means
      the unbounded loop of `traceRoute` never ends. */
  lemma TraceFuelSuffices(s: NetState, start: string, d: string, fuel: nat, more: nat)
    requires start in s && d in s[start].table && HopsKnown(s, d)
    requires |s| <= fuel <= more
    ensures TraceSpec(s, start, d, more) == TraceSpec(s, start, d, fuel)
  {
    if Walk(s, start, d, fuel).Looping? {
      WalkLoopsForever(s, start, d, fuel, more);
    } else {
      WalkFuelMonotone(s, start, d, fuel, more);
    }
  }

  // ---------------------------------------------------------------------
  // A whole exchange
  // ---------------------------------------------------------------------

  /** The network after `exchange`: the round, then the events that came
      due, in the order they fired. */
  ghost function Exchanged(s: NetState, splitHorizon: bool, orders: map<string, seq<string>>,
                           fired: seq<NetworkEvent>): (r: NetState)
    requires WellFormed(s) && OrdersFit(s, orders)
    requires forall i :: 0 <= i < |fired| ==> fired[i].node1 in s
    ensures r.Keys == s.Keys && WellFormed(r)
    ensures Symmetric(s) ==> Symmetric(r)
  {
    RoundPreserves(s, splitHorizon, orders);
    ApplyEvents(RoundSpec(s, splitHorizon, orders), fired)
  }

  /** An exchange with nothing to fire after a round in which no node reports
      a change leaves the network as it was. */
  lemma QuietExchangeIsFixpoint(s: NetState, splitHorizon: bool, orders: map<string, seq<string>>)
    requires WellFormed(s) && OrdersFit(s, orders)
    requires !RoundChanged(s, splitHorizon, orders)
    ensures Exchanged(s, splitHorizon, orders, []) == s
  {
    StableRoundIsFixpoint(s, splitHorizon, orders);
  }
}
