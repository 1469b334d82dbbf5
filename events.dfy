/**
 * Scheduled link events (package `events`). The abstract class
 * NetworkEvent and its two subclasses become one tagged union: the
 * constructor of each variant is the Java constructor, and the shared
 * destructors `iteration`, `node1`, `node2` and the variant-only `newCost`
 * are the getters.
 */
module Events {

  /** A change of link state between `node1` and `node2`, due on round `iteration`. */
  datatype NetworkEvent =
    | FailureEvent(iteration: int, node1: string, node2: string)
    | CostChangeEvent(iteration: int, node1: string, node2: string, newCost: int)

  /** The constructors keep what they are given: the getters return it unchanged. */
  lemma ConstructorsStoreFields(iteration: int, node1: string, node2: string, newCost: int)
    ensures var f := FailureEvent(iteration, node1, node2);
      f.iteration == iteration && f.node1 == node1 && f.node2 == node2
    ensures var c := CostChangeEvent(iteration, node1, node2, newCost);
      c.iteration == iteration && c.node1 == node1 && c.node2 == node2 && c.newCost == newCost
  {
  }

  /** `compareTo`: the sign of the difference of the two target rounds, nothing else. */
  function CompareTo(e: NetworkEvent, o: NetworkEvent): (r: int)
    ensures -1 <= r <= 1
    ensures r == -1 <==> e.iteration < o.iteration
    ensures r == 0 <==> e.iteration == o.iteration
    ensures r == 1 <==> e.iteration > o.iteration
  {
    if e.iteration < o.iteration then -1
    else if e.iteration > o.iteration then 1
    else 0
  }

  /** Two events due on the same round are tied, whatever their nodes, kinds or costs. */
  lemma SameRoundTies(e: NetworkEvent, o: NetworkEvent)
    requires e.iteration == o.iteration
    ensures CompareTo(e, o) == 0 && CompareTo(o, e) == 0
  {
  }

  /** `compareTo` is antisymmetric. */
  lemma CompareToAntisymmetric(a: NetworkEvent, b: NetworkEvent)
    ensures CompareTo(a, b) == -CompareTo(b, a)
  {
  }

  /** `compareTo` is transitive and total: a total preorder on the target round. */
  lemma CompareToTotalPreorder(a: NetworkEvent, b: NetworkEvent, c: NetworkEvent)
    ensures CompareTo(a, b) <= 0 || CompareTo(b, a) <= 0
    ensures CompareTo(a, b) <= 0 && CompareTo(b, c) <= 0 ==> CompareTo(a, c) <= 0
  {
  }

  /** The same event with its two node names exchanged. */
  function Swapped(e: NetworkEvent): (r: NetworkEvent)
    ensures r.iteration == e.iteration && r.node1 == e.node2 && r.node2 == e.node1
    ensures r.FailureEvent? == e.FailureEvent?
    ensures r.CostChangeEvent? ==> r.newCost == e.newCost
    ensures CompareTo(r, e) == 0
  {
    match e
    case FailureEvent(i, n1, n2) => FailureEvent(i, n2, n1)
    case CostChangeEvent(i, n1, n2, c) => CostChangeEvent(i, n2, n1, c)
  }

  /** A least event of a non-empty queue: what `PriorityQueue.peek` may return. */
  ghost function SomeLeast(q: multiset<NetworkEvent>): (e: NetworkEvent)
    requires |q| > 0
    ensures e in q
    ensures forall o :: o in q ==> CompareTo(e, o) <= 0
    decreases |q|
  {
    var x :| x in q;
    var rest := q - multiset{x};
    assert forall o :: o in q ==> o == x || o in rest;
    if |rest| == 0 then x
    else
      var m := SomeLeast(rest);
      if m.iteration <= x.iteration then m else x
  }
}
