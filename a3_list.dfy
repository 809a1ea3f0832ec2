/** The singly linked list of route records of a3/list.c. A list is named by
    its head pointer; the ghost sequence `nodes` lists the nodes reachable
    from the head, in order, and `Entries(nodes)` is the list's value. */
module LinkedList {
  import opened Text

  /** The eleven text fields of a record (`node_t` in a3/list.h). */
  datatype Route = Route(
    airlineName: string, airlineIcaoUniqueCode: string, airlineCountry: string,
    fromAirportName: string, fromAirportCity: string, fromAirportCountry: string,
    fromAirportIcaoUniqueCode: string,
    toAirportName: string, toAirportCity: string, toAirportCountry: string,
    toAirportIcaoUniqueCode: string)

  /** What one node holds apart from its `next` pointer. */
  datatype Entry = Entry(route: Route, frequency: int)

  const EmptyRoute := Route("", "", "", "", "", "", "", "", "", "", "")

  /** `node_t`: the eleven strings are kept together as one `Route` value,
      which the model reads and writes field by field as the C code does. */
  class Node {
    var route: Route
    var frequency: int
    var next: Node?

    /** `new_node`: a fresh node with frequency 0 and no successor; its
        string buffers are allocated but not filled, modelled as empty. */
    constructor ()
      ensures Value() == Entry(EmptyRoute, 0)
      ensures next == null
    {
      route := EmptyRoute;
      frequency := 0;
      next := null;
    }

    /** `copy`: a new unlinked node holding the same eleven strings and
        frequency as `src`, which is only read. */
    constructor Copy(src: Node)
      ensures Value() == src.Value()
      ensures next == null
    {
      route := src.route;
      frequency := src.frequency;
      next := null;
    }

    /** What the node holds; relinking `next` does not change it. */
    function Value(): Entry
      reads this`route, this`frequency
    {
      Entry(route, frequency)
    }
  }

  /** `head` starts a NULL-terminated chain that visits exactly `nodes`, in order, each once. */
  ghost predicate IsList(head: Node?, nodes: seq<Node>)
    reads nodes`next
  {
    && (head == null <==> nodes == [])
    && (nodes != [] ==> head == nodes[0] && nodes[|nodes| - 1].next == null)
    && (forall i :: 0 <= i < |nodes| - 1 ==> nodes[i].next == nodes[i + 1])
    && (forall i, j :: 0 <= i < j < |nodes| ==> nodes[i] != nodes[j])
  }

  /** The values held by `nodes`, in order. */
  ghost function Entries(nodes: seq<Node>): (es: seq<Entry>)
    reads nodes`route, nodes`frequency
    ensures |es| == |nodes|
  {
    if nodes == [] then [] else [nodes[0].Value()] + Entries(nodes[1..])
  }

  /** Entry `i` of the list is the value of its `i`-th node. */
  lemma {:induction false} EntryAt(nodes: seq<Node>, i: nat)
    requires i < |nodes|
    ensures Entries(nodes)[i] == nodes[i].Value()
    decreases i
  {
    if i > 0 {
      EntryAt(nodes[1..], i - 1);
    }
  }

  /** Every entry of the list, position by position. */
  lemma EntriesSpec(nodes: seq<Node>)
    ensures forall i :: 0 <= i < |nodes| ==> Entries(nodes)[i] == nodes[i].Value()
  {
    forall i | 0 <= i < |nodes| ensures Entries(nodes)[i] == nodes[i].Value() {
      EntryAt(nodes, i);
    }
  }

  /** A sequence that agrees with the nodes' values everywhere is their entries. */
  lemma EntriesFromValues(nodes: seq<Node>, es: seq<Entry>)
    requires |es| == |nodes| && forall i :: 0 <= i < |nodes| ==> nodes[i].Value() == es[i]
    ensures Entries(nodes) == es
  {
    EntriesSpec(nodes);
  }

  /** The entries of two chained node sequences are the two entry sequences chained. */
  lemma EntriesAppend(a: seq<Node>, b: seq<Node>)
    ensures Entries(a + b) == Entries(a) + Entries(b)
  {
    var both, front, back := Entries(a + b), Entries(a), Entries(b);
    EntriesSpec(a + b);
    EntriesSpec(a);
    EntriesSpec(b);
    forall i | 0 <= i < |a + b|
      ensures both[i] == (front + back)[i]
    {
      if i < |a| {
        assert (a + b)[i] == a[i];
      } else {
        assert (a + b)[i] == b[i - |a|];
      }
    }
  }

  /** `add_front`: the new node becomes the head, followed by the old list. */
  method AddFront(list: Node?, node: Node, ghost nodes: seq<Node>) returns (r: Node?, ghost nodes': seq<Node>)
    requires IsList(list, nodes) && node !in nodes
    modifies node`next
    ensures r == node && node.next == list
    ensures nodes' == [node] + nodes && IsList(r, nodes')
    ensures Entries(nodes') == [old(node.Value())] + old(Entries(nodes))
  {
    node.next := list;
    r := node;
    nodes' := [node] + nodes;
  }

  /** `add_end`: the head is kept (unless the list was empty), the old nodes
      keep their order and `node` is the last node. */
  method AddEnd(list: Node?, node: Node, ghost nodes: seq<Node>) returns (r: Node?, ghost nodes': seq<Node>)
    requires IsList(list, nodes) && node !in nodes
    modifies nodes`next, node`next
    ensures list == null ==> r == node
    ensures list != null ==> r == list
    ensures nodes' == nodes + [node] && IsList(r, nodes') && node.next == null
    ensures Entries(nodes') == old(Entries(nodes)) + [old(node.Value())]
  {
    if list == null {
      node.next := null;
      return node, [node];
    }
    var curr := list;
    ghost var i := 0;
    while curr.next != null
      invariant 0 <= i < |nodes| && curr == nodes[i]
      invariant curr.next == if i < |nodes| - 1 then nodes[i + 1] else null
      modifies {}
      decreases |nodes| - i
    {
      curr := curr.next;
      i := i + 1;
    }
    assert i == |nodes| - 1;
    ghost var es := Entries(nodes);
    curr.next := node;
    node.next := null;
    r := list;
    nodes' := nodes + [node];
    assert Entries(nodes) == es;
    forall j | 0 <= j < |nodes| - 1
      ensures nodes[j].next == nodes[j + 1]
    {
      assert nodes[j] != curr && nodes[j] != node;
    }
    EntriesAppend(nodes, [node]);
  }

  /** The sort key that `add_inorder` compares for a question. */
  predicate KeyLess(question: string, a: Route, b: Route) {
    question in {"1", "2", "3"} && StrLess(KeyOf(question, a), KeyOf(question, b))
  }

  /** The string that `KeyLess` compares for questions "1", "2" and "3". */
  function KeyOf(question: string, r: Route): string {
    if question == "1" then r.airlineName
    else if question == "2" then r.toAirportCountry
    else r.toAirportName
  }

  /** A node that stays in front of `e` is in order before it; the node the scan stops at is in order after it. */
  lemma StaysBeforeOrder(question: string, x: Entry, e: Entry)
    ensures StaysBefore(question, x, e) ==> InOrder(question, x, e)
    ensures !StaysBefore(question, x, e) ==> InOrder(question, e, x)
  {
    StrLessTotal(KeyOf(question, x.route), KeyOf(question, e.route));
  }

  /** The test of `add_inorder`'s scan: node `x` stays in front of the entry `e` being inserted. */
  predicate StaysBefore(question: string, x: Entry, e: Entry) {
    e.frequency < x.frequency || (e.frequency == x.frequency && KeyLess(question, x.route, e.route))
  }

  /** The list order: frequency descending, then key ascending. */
  predicate InOrder(question: string, x: Entry, y: Entry) {
    x.frequency > y.frequency || (x.frequency == y.frequency && !KeyLess(question, y.route, x.route))
  }

  predicate Sorted(question: string, es: seq<Entry>) {
    forall i :: 0 <= i < |es| - 1 ==> InOrder(question, es[i], es[i + 1])
  }

  /** Where `add_inorder` links `e` in: in front of the first entry that does not stay before it. */
  function InsertionPoint(question: string, es: seq<Entry>, e: Entry): (k: nat)
    ensures k <= |es|
    ensures forall j :: 0 <= j < k ==> StaysBefore(question, es[j], e)
    ensures k < |es| ==> !StaysBefore(question, es[k], e)
  {
    if es == [] || !StaysBefore(question, es[0], e) then 0
    else 1 + InsertionPoint(question, es[1..], e)
  }

  /** The value of the list that `add_inorder` returns. */
  function InsertInOrder(question: string, es: seq<Entry>, e: Entry): seq<Entry> {
    var k := InsertionPoint(question, es, e);
    es[..k] + [e] + es[k..]
  }

  /** Insertion into a sorted list gives a sorted list. */
  lemma InsertKeepsSorted(question: string, es: seq<Entry>, e: Entry)
    requires Sorted(question, es)
    ensures Sorted(question, InsertInOrder(question, es, e))
  {
    var k := InsertionPoint(question, es, e);
    var r := InsertInOrder(question, es, e);
    forall i | 0 <= i < |r| - 1 ensures InOrder(question, r[i], r[i + 1]) {
      if i + 1 < k {
        assert r[i] == es[i] && r[i + 1] == es[i + 1];
      } else if i + 1 == k {
        assert r[i] == es[i] && r[i + 1] == e;
        StaysBeforeOrder(question, es[i], e);
      } else if i == k {
        assert r[i] == e && r[i + 1] == es[k];
        StaysBeforeOrder(question, es[k], e);
      } else {
        assert r[i] == es[i - 1] && r[i + 1] == es[i];
      }
    }
  }

  /** The inserted list holds exactly the old entries and `e`. */
  lemma InsertIsPermutation(question: string, es: seq<Entry>, e: Entry)
    ensures multiset(InsertInOrder(question, es, e)) == multiset(es) + multiset{e}
  {
    var k := InsertionPoint(question, es, e);
    calc {
      multiset(InsertInOrder(question, es, e));
      multiset(es[..k]) + multiset{e} + multiset(es[k..]);
      { assert es == es[..k] + es[k..]; }
      multiset(es) + multiset{e};
    }
  }

  /** On a tie in frequency and key the inserted entry goes in front of the old one. */
  lemma InsertBeforeEqual(question: string, es: seq<Entry>, e: Entry, j: nat)
    requires j < |es| && es[j].frequency == e.frequency
    requires question in {"1", "2", "3"} ==> KeyOf(question, es[j].route) == KeyOf(question, e.route)
    ensures InsertionPoint(question, es, e) <= j
  {
    StrLessTotal(KeyOf(question, e.route), KeyOf(question, e.route));
  }

  /** `add_inorder`: a NULL node leaves the list as it is; into an empty list
      the node itself is returned, whatever its `next`; otherwise the node is
      linked in at `InsertionPoint` and no other node changes place. */
  method AddInOrder(list: Node?, node: Node?, question: string, ghost nodes: seq<Node>)
    returns (r: Node?, ghost nodes': seq<Node>)
    requires IsList(list, nodes)
    requires node != null ==> node !in nodes
    modifies nodes`next, (if node == null then {} else {node})`next
    ensures node == null ==> r == list && nodes' == nodes && unchanged(nodes)
    ensures node != null && list == null ==> r == node && nodes' == [node] && unchanged(node)
    ensures node != null && list != null ==>
      var k := InsertionPoint(question, old(Entries(nodes)), old(node.Value()));
      nodes' == nodes[..k] + [node] + nodes[k..] && (k == 0 <==> r == node) && (k > 0 ==> r == list)
    ensures node != null && (list != null || old(node.next) == null) ==>
      IsList(r, nodes') && Entries(nodes') == InsertInOrder(question, old(Entries(nodes)), old(node.Value()))
  {
    if node == null {
      return list, nodes;
    }
    if list == null {
      return node, [node];
    }
    r, nodes' := InsertInto(list, node, question, nodes);
  }

  /** `add_inorder` on a non-empty list: scan for the place, then relink. */
  method InsertInto(list: Node, node: Node, question: string, ghost nodes: seq<Node>)
    returns (r: Node, ghost nodes': seq<Node>)
    requires IsList(list, nodes) && node !in nodes
    modifies nodes`next, node`next
    ensures
      var k := InsertionPoint(question, Entries(nodes), node.Value());
      nodes' == nodes[..k] + [node] + nodes[k..] && (k == 0 <==> r == node) && (k > 0 ==> r == list)
    ensures IsList(r, nodes') && Entries(nodes') == InsertInOrder(question, Entries(nodes), node.Value())
    ensures Entries(nodes) == old(Entries(nodes)) && node.Value() == old(node.Value())
  {
    var prev, curr, i := FindPlace(list, node, question, nodes);
    r := LinkBetween(list, prev, node, curr, nodes, i);
    nodes' := nodes[..i] + [node] + nodes[i..];
  }

  /** The scan of `add_inorder`: walks past every node that stays before
      `node` (higher frequency, or equal frequency and a smaller key) and
      stops at the insertion point, with `prev` the node before it. */
  method FindPlace(list: Node, node: Node, question: string, ghost nodes: seq<Node>)
    returns (prev: Node?, curr: Node?, ghost i: nat)
    requires IsList(list, nodes)
    ensures i == InsertionPoint(question, Entries(nodes), node.Value())
    ensures curr == if i < |nodes| then nodes[i] else null
    ensures prev == if i == 0 then null else nodes[i - 1]
  {
    ghost var es := Entries(nodes);
    ghost var e := node.Value();
    prev, curr, i := null, list, 0;
    while curr != null
      invariant 0 <= i <= |nodes|
      invariant curr == if i < |nodes| then nodes[i] else null
      invariant prev == if i == 0 then null else nodes[i - 1]
      invariant forall j :: 0 <= j < i ==> StaysBefore(question, es[j], e)
      decreases |nodes| - i
    {
      EntryAt(nodes, i);
      if node.frequency < curr.frequency {
        prev := curr;
      } else if node.frequency == curr.frequency {
        if || (question == "1" && StrLess(curr.route.airlineName, node.route.airlineName))
           || (question == "2" && StrLess(curr.route.toAirportCountry, node.route.toAirportCountry))
           || (question == "3" && StrLess(curr.route.toAirportName, node.route.toAirportName))
        {
          prev := curr;
        } else {
          break;
        }
      } else {
        break;
      }
      curr := curr.next;
      i := i + 1;
    }
    ScanStop(question, es, e, i);
  }

  /** The relinking that ends `add_inorder`: `node` goes between `prev` (the
      node at `i - 1`, or none) and `curr` (the node at `i`, or none). */
  method LinkBetween(list: Node, prev: Node?, node: Node, curr: Node?, ghost nodes: seq<Node>, ghost i: nat)
    returns (r: Node)
    requires IsList(list, nodes) && node !in nodes && i <= |nodes|
    requires curr == if i < |nodes| then nodes[i] else null
    requires prev == if i == 0 then null else nodes[i - 1]
    modifies node`next, (if prev == null then {} else {prev})`next
    ensures r == if i == 0 then node else list
    ensures IsList(r, nodes[..i] + [node] + nodes[i..])
    ensures Entries(nodes[..i] + [node] + nodes[i..]) == Entries(nodes)[..i] + [node.Value()] + Entries(nodes)[i..]
    ensures Entries(nodes) == old(Entries(nodes)) && node.Value() == old(node.Value())
  {
    Successors(list, nodes);
    node.next := curr;
    if prev == null {
      r := node;
    } else {
      prev.next := node;
      r := list;
    }
    forall j | 0 <= j < |nodes| && j != i - 1
      ensures nodes[j].next == old(nodes[j].next)
    {
      assert nodes[j] != node;
      if i > 0 {
        assert nodes[j] != nodes[i - 1];
      }
    }
    LinkedIn(nodes, node, i);
    EntriesOfInsert(nodes, node, i);
  }

  /** A scan that stops at `i` stops at the insertion point. */
  lemma {:induction false} ScanStop(question: string, es: seq<Entry>, e: Entry, i: nat)
    requires i <= |es|
    requires forall j :: 0 <= j < i ==> StaysBefore(question, es[j], e)
    requires i < |es| ==> !StaysBefore(question, es[i], e)
    ensures i == InsertionPoint(question, es, e)
    decreases i
  {
    if i > 0 {
      ScanStop(question, es[1..], e, i - 1);
    }
  }

  /** Each node of a list points at the next one, and the last at NULL. */
  lemma Successors(head: Node?, nodes: seq<Node>)
    requires IsList(head, nodes)
    ensures forall j {:trigger nodes[j].next} :: 0 <= j < |nodes| ==> nodes[j].next == if j + 1 < |nodes| then nodes[j + 1] else null
  {
  }

  /** The values along the chain with `node` linked in at `k`. */
  lemma EntriesOfInsert(nodes: seq<Node>, node: Node, k: nat)
    requires k <= |nodes|
    ensures Entries(nodes[..k] + [node] + nodes[k..]) == Entries(nodes)[..k] + [node.Value()] + Entries(nodes)[k..]
  {
    var front, back := nodes[..k], nodes[k..];
    EntriesAppend(front + [node], back);
    EntriesAppend(front, [node]);
    assert Entries([node]) == [node.Value()] by {
      assert [node][1..] == [];
    }
    assert front + back == nodes;
    EntriesAppend(front, back);
    var es := Entries(nodes);
    assert es[..k] == Entries(front) && es[k..] == Entries(back);
  }

  /** The chain that results once `node` has been linked in at position `k`. */
  lemma LinkedIn(nodes: seq<Node>, node: Node, k: nat)
    requires k <= |nodes| && node !in nodes
    requires forall i, j :: 0 <= i < j < |nodes| ==> nodes[i] != nodes[j]
    requires forall j {:trigger nodes[j].next} :: 0 <= j < |nodes| && j != k - 1 ==> nodes[j].next == if j + 1 < |nodes| then nodes[j + 1] else null
    requires k > 0 ==> nodes[k - 1].next == node
    requires node.next == if k < |nodes| then nodes[k] else null
    ensures IsList(if k == 0 then node else nodes[0], nodes[..k] + [node] + nodes[k..])
  {
    var r := nodes[..k] + [node] + nodes[k..];
    assert r[|r| - 1].next == null by {
      if k < |nodes| {
        assert r[|r| - 1] == nodes[|nodes| - 1];
      }
    }
    forall j | 0 <= j < |r| - 1 ensures r[j].next == r[j + 1] {
      if j < k - 1 {
        assert r[j] == nodes[j] && r[j + 1] == nodes[j + 1];
      } else if j == k - 1 {
        assert r[j] == nodes[k - 1] && r[j + 1] == node;
      } else if j == k {
        assert r[j] == node && r[j + 1] == nodes[k];
      } else {
        assert r[j] == nodes[j - 1] && r[j + 1] == nodes[j];
      }
    }
  }

  /** `remove_front`: the rest of the list after the head. The source's NULL
      branch hands NULL to `delete_node`, which dereferences it, so the list
      must not be empty. Freeing the old head is not modelled. */
  method RemoveFront(list: Node?, ghost nodes: seq<Node>) returns (r: Node?, ghost nodes': seq<Node>)
    requires IsList(list, nodes) && list != null
    ensures r == list.next
    ensures nodes' == nodes[1..] && IsList(r, nodes')
    ensures Entries(nodes') == Entries(nodes)[1..]
  {
    r := list.next;
    nodes' := nodes[1..];
    assert |nodes| > 1 ==> r == nodes[1];
  }

  /** Left fold of `fn` over a list's entries: `fn` applied once per node, in list order. */
  function FoldEntries<A>(fn: (Entry, A) -> A, es: seq<Entry>, arg: A): A
    decreases |es|
  {
    if es == [] then arg else FoldEntries(fn, es[1..], fn(es[0], arg))
  }

  /** `apply`: calls `fn` on every node from the head to the end. The callback
      is modelled as a pure step on the accumulated argument. */
  method Apply<A>(list: Node?, fn: (Entry, A) -> A, arg: A, ghost nodes: seq<Node>) returns (acc: A)
    requires IsList(list, nodes)
    ensures acc == FoldEntries(fn, Entries(nodes), arg)
  {
    var p := list;
    acc := arg;
    ghost var i := 0;
    while p != null
      invariant 0 <= i <= |nodes|
      invariant p == if i < |nodes| then nodes[i] else null
      invariant FoldEntries(fn, Entries(nodes), arg) == FoldEntries(fn, Entries(nodes)[i..], acc)
      decreases |nodes| - i
    {
      assert Entries(nodes)[i..][1..] == Entries(nodes)[i + 1..];
      EntryAt(nodes, i);
      acc := fn(p.Value(), acc);
      p := p.next;
      i := i + 1;
    }
  }
}
