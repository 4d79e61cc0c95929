/** Singly linked lists: chains of nodes through their `next` pointers. */
module Lists {

  /** A struct with a `next` pointer. */
  class Node<V> {
    var value: V
    var next: Node?<V>

    constructor (value: V)
      ensures this.value == value && next == null
    {
      this.value := value;
      next := null;
    }
  }

  /** The sequence without its element at position `i`. */
  function Without<T>(s: seq<T>, i: nat): (r: seq<T>)
    requires i < |s|
    ensures |r| == |s| - 1
    ensures forall j :: 0 <= j < |r| ==> r[j] == if j < i then s[j] else s[j + 1]
    ensures forall x :: x in r ==> x in s
    ensures forall x :: x in s ==> x in r || x == s[i]
  {
    s[..i] + s[i + 1..]
  }

  /** `p` is the node at position `i`, or null behind the last one. */
  predicate Points<V>(p: Node?<V>, nodes: seq<Node<V>>, i: nat) {
    if i < |nodes| then p == nodes[i] else p == null
  }

  ghost predicate Distinct<V>(nodes: seq<Node<V>>) {
    forall i, j :: 0 <= i < j < |nodes| ==> nodes[i] != nodes[j]
  }

  /** Following the pointers from `head` visits these nodes, and then ends. */
  ghost predicate Linked<V>(head: Node?<V>, nodes: seq<Node<V>>)
    reads nodes`next
  {
    && Points(head, nodes, 0)
    && (forall i {:trigger nodes[i].next} :: 0 <= i < |nodes| ==> Points(nodes[i].next, nodes, i + 1))
    && Distinct(nodes)
  }

  ghost function Values<V>(nodes: seq<Node<V>>): (vs: seq<V>)
    reads nodes`value
    ensures |vs| == |nodes| && forall i :: 0 <= i < |nodes| ==> vs[i] == nodes[i].value
  {
    if nodes == [] then [] else [nodes[0].value] + Values(nodes[1..])
  }

  /** A node put in front of a list. */
  lemma Pushed<V>(n: Node<V>, nodes: seq<Node<V>>)
    requires Linked(n.next, nodes) && n !in nodes
    ensures Linked(n, [n] + nodes)
  {
    var s := [n] + nodes;
    forall i | 0 <= i < |s| ensures Points(s[i].next, s, i + 1) {
      if i > 0 { assert s[i] == nodes[i - 1]; }
    }
  }

  lemma ValuesPushed<V>(n: Node<V>, nodes: seq<Node<V>>)
    ensures Values([n] + nodes) == [n.value] + Values(nodes)
  {
    assert ([n] + nodes)[1..] == nodes;
  }

  /** A node hung on the end of a list. */
  lemma Appended<V>(head: Node?<V>, nodes: seq<Node<V>>, n: Node<V>)
    requires Distinct(nodes) && n !in nodes && n.next == null
    requires Points(head, nodes + [n], 0)
    requires forall i {:trigger nodes[i].next} :: 0 <= i < |nodes| ==> Points(nodes[i].next, nodes + [n], i + 1)
    ensures Linked(head, nodes + [n])
  {
    var s := nodes + [n];
    forall i | 0 <= i < |s| ensures Points(s[i].next, s, i + 1) {
      assert s[i] == if i < |nodes| then nodes[i] else n;
    }
  }

  lemma ValuesAppended<V>(nodes: seq<Node<V>>, n: Node<V>)
    ensures Values(nodes + [n]) == Values(nodes) + [n.value]
  {
    hide Values;
  }

  /** A node cut out of a list: whatever pointed to it now points behind it. */
  lemma Unlinked<V>(head: Node?<V>, nodes: seq<Node<V>>, k: nat)
    requires k < |nodes| && Distinct(nodes)
    requires Points(head, nodes, if k == 0 then 1 else 0)
    requires forall i {:trigger nodes[i].next} :: 0 <= i < |nodes| && i != k ==>
      Points(nodes[i].next, nodes, if i + 1 == k then k + 1 else i + 1)
    ensures Linked(head, Without(nodes, k))
  {
    var s := Without(nodes, k);
    forall i | 0 <= i < |s| ensures Points(s[i].next, s, i + 1) {
      assert s[i] == if i < k then nodes[i] else nodes[i + 1];
    }
  }

  lemma ValuesWithout<V>(nodes: seq<Node<V>>, k: nat)
    requires k < |nodes|
    ensures Values(Without(nodes, k)) == Without(Values(nodes), k)
  {
    hide Values;
  }
}
