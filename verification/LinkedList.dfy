/** The intrusive circular list and the leak tracker on top of it
    (src/chromium/linked_list.hh:83-167, src/chromium/debug/leak_tracker.hh:65-129). */
module LinkedList {

  class LinkNode {
    var previous: LinkNode?
    var next: LinkNode?

    constructor ()
      ensures previous == null && next == null
    {
      previous, next := null, null;
    }
  }

  /** `next` leads from each node to the one after it, and `previous` leads back. */
  ghost predicate Chain(c: seq<LinkNode>)
    reads c
  {
    forall i :: 0 <= i < |c| - 1 ==> c[i].next == c[i + 1] && c[i + 1].previous == c[i]
  }

  /** The nodes once around the ring, from the root back to the root. */
  function Around(root: LinkNode, nodes: seq<LinkNode>): seq<LinkNode> {
    [root] + nodes + [root]
  }

  ghost predicate Different(root: LinkNode, nodes: seq<LinkNode>) {
    && root !in nodes
    && (forall i, j :: 0 <= i < j < |nodes| ==> nodes[i] != nodes[j])
  }

  /** No node is met twice on the way around, from either end. */
  lemma DifferentAround(root: LinkNode, nodes: seq<LinkNode>)
    requires Different(root, nodes)
    ensures var c := Around(root, nodes);
            && (forall i, j :: 0 <= i < j < |c| - 1 ==> c[i] != c[j])
            && (forall i, j :: 1 <= i < j < |c| ==> c[i] != c[j])
  {
    var c := Around(root, nodes);
    assert forall i :: 1 <= i < |c| - 1 ==> c[i] == nodes[i - 1] && c[i] in nodes;
  }

  function Inserted<T>(s: seq<T>, i: nat, x: T): seq<T>
    requires i <= |s|
  {
    s[..i] + [x] + s[i..]
  }

  function Removed<T>(s: seq<T>, i: nat): seq<T>
    requires i < |s|
  {
    s[..i] + s[i + 1..]
  }

  /** Next and previous undo each other all around. */
  lemma MutuallyInverse(root: LinkNode, nodes: seq<LinkNode>, node: LinkNode)
    requires Chain(Around(root, nodes)) && (node == root || node in nodes)
    ensures node.next != null && node.previous != null
    ensures node.next.previous == node && node.previous.next == node
    ensures node.next == root || node.next in nodes
  {
    var c := Around(root, nodes);
    if node == root {
      assert c[0].next == c[1] && c[|c| - 2].next == c[|c| - 1];
    } else {
      var i :| 0 <= i < |nodes| && nodes[i] == node;
      assert c[i + 1] == node && c[i].next == c[i + 1] && c[i + 1].next == c[i + 2];
    }
  }

  /** Links a new node, whose own pointers are set, between two neighbours. */
  method Link(node: LinkNode, before: LinkNode, after: LinkNode, ghost c: seq<LinkNode>, ghost i: nat)
    requires Chain(c) && i + 1 < |c| && before == c[i] && after == c[i + 1]
    requires node !in c && node.previous == before && node.next == after
    requires forall j, k :: 0 <= j < k < |c| - 1 ==> c[j] != c[k]
    requires forall j, k :: 1 <= j < k < |c| ==> c[j] != c[k]
    modifies before`next, after`previous
    ensures Chain(Inserted(c, i + 1, node))
  {
    ghost var r := Inserted(c, i + 1, node);
    assert forall j :: 0 <= j < |r| ==> r[j] == if j <= i then c[j] else if j == i + 1 then node else c[j - 1];
    before.next := node;
    after.previous := node;
  }

  /** Unlinks a node, whose own pointers stay as they are. */
  method Unlink(node: LinkNode, ghost before: LinkNode, ghost after: LinkNode, ghost c: seq<LinkNode>, ghost i: nat)
    requires Chain(c) && 0 < i && i + 1 < |c| && node == c[i] && before == c[i - 1] && after == c[i + 1]
    requires forall j, k :: 0 <= j < k < |c| - 1 ==> c[j] != c[k]
    requires forall j, k :: 1 <= j < k < |c| ==> c[j] != c[k]
    modifies before`next, after`previous
    ensures Chain(Removed(c, i))
  {
    ghost var r := Removed(c, i);
    assert c[i - 1].next == c[i] && c[i].next == c[i + 1] && c[i].previous == c[i - 1];
    assert c[i - 1] != c[i];
    assert forall j :: 0 <= j < |r| ==> r[j] == if j < i then c[j] else c[j + 1];
    node.previous.next := node.next;
    node.next.previous := node.previous;
    forall j | 0 <= j < |r| - 1 ensures r[j].next == r[j + 1] && r[j + 1].previous == r[j] {
      if j != i - 1 {
        var k := if j < i then j else j + 1;
        assert c[k] != before && c[k + 1] != after;
      }
    }
  }

  /** A list is its root and, in order, the nodes in it. */
  class LinkedList {
    const root: LinkNode
    ghost var nodes: seq<LinkNode>

    ghost predicate Valid()
      reads this, root, nodes
    {
      Different(root, nodes) && Chain(Around(root, nodes))
    }

    constructor ()
      ensures Valid() && fresh(root) && nodes == []
    {
      root := new LinkNode();
      nodes := [];
      new;
      root.previous, root.next := root, root;
    }

    /** Before a node of the list, or before the root, which appends. */
    method InsertBefore(node: LinkNode, e: LinkNode, ghost i: nat)
      requires Valid() && node != root && node !in nodes
      requires i <= |nodes| && e == Around(root, nodes)[i + 1]
      modifies this, root, nodes, node
      ensures Valid() && nodes == Inserted(old(nodes), i, node)
    {
      ghost var c := Around(root, nodes);
      DifferentAround(root, nodes);
      assert c[i].next == c[i + 1] && c[i + 1].previous == c[i];
      node.next := e;
      node.previous := e.previous;
      assert Chain(c);
      InsertedDifferent(root, nodes, i, node);
      Link(node, e.previous, e, c, i);
      nodes := Inserted(nodes, i, node);
    }

    /** After a node of the list, or after the root, which prepends. */
    method InsertAfter(node: LinkNode, e: LinkNode, ghost i: nat)
      requires Valid() && node != root && node !in nodes
      requires i <= |nodes| && e == Around(root, nodes)[i]
      modifies this, root, nodes, node
      ensures Valid() && nodes == Inserted(old(nodes), i, node)
    {
      ghost var c := Around(root, nodes);
      DifferentAround(root, nodes);
      assert c[i].next == c[i + 1] && c[i + 1].previous == c[i];
      node.next := e.next;
      node.previous := e;
      assert Chain(c);
      InsertedDifferent(root, nodes, i, node);
      Link(node, e, e.next, c, i);
      nodes := Inserted(nodes, i, node);
    }

    method RemoveFromList(node: LinkNode, ghost i: nat)
      requires Valid() && i < |nodes| && node == nodes[i]
      modifies this, root, nodes
      ensures Valid() && nodes == Removed(old(nodes), i)
      ensures node.next == old(node.next) && node.previous == old(node.previous)
    {
      ghost var c := Around(root, nodes);
      DifferentAround(root, nodes);
      assert c[i + 1] == node && c[i] in c && c[i + 2] in c;
      assert i > 0 ==> c[i] == nodes[i - 1];
      assert i + 1 < |nodes| ==> c[i + 2] == nodes[i + 1];
      RemovedDifferent(root, nodes, i);
      Unlink(node, c[i], c[i + 2], c, i + 1);
      nodes := Removed(nodes, i);
    }

    method Append(node: LinkNode)
      requires Valid() && node != root && node !in nodes
      modifies this, root, nodes, node
      ensures Valid() && nodes == old(nodes) + [node]
    {
      InsertBefore(node, root, |nodes|);
    }

    /** The forward walk meets exactly the nodes of the list and then the root. */
    method NumLiveInstances() returns (count: int)
      requires Valid()
      ensures count == |nodes|
    {
      ghost var c := Around(root, nodes);
      DifferentAround(root, nodes);
      assert c[0].next == c[1];
      count := 0;
      var node := root.next;
      while node != root
        invariant 0 <= count <= |nodes| && node == c[count + 1]
        decreases |nodes| - count
      {
        assert c[count + 1].next == c[count + 2];
        node := node.next;
        count := count + 1;
      }
    }
  }

  lemma InsertedDifferent(root: LinkNode, nodes: seq<LinkNode>, i: nat, node: LinkNode)
    requires Different(root, nodes) && i <= |nodes| && node != root && node !in nodes
    ensures Different(root, Inserted(nodes, i, node))
    ensures Around(root, Inserted(nodes, i, node)) == Inserted(Around(root, nodes), i + 1, node)
    ensures node !in Around(root, nodes)
  {
    var r := Inserted(nodes, i, node);
    assert forall j :: 0 <= j < |r| ==> r[j] == if j < i then nodes[j] else if j == i then node else nodes[j - 1];
  }

  lemma RemovedDifferent(root: LinkNode, nodes: seq<LinkNode>, i: nat)
    requires Different(root, nodes) && i < |nodes|
    ensures Different(root, Removed(nodes, i))
    ensures Around(root, Removed(nodes, i)) == Removed(Around(root, nodes), i + 1)
    ensures nodes[i] !in Removed(nodes, i)
  {
    var r := Removed(nodes, i);
    assert forall j :: 0 <= j < |r| ==> r[j] == nodes[if j < i then j else j + 1];
  }

  /** Trackers append themselves when constructed and remove themselves when destroyed. */
  class LeakTracker {
    const instances: LinkedList
    ghost var constructed: nat
    ghost var destroyed: nat

    ghost predicate Valid()
      reads this, instances, instances.root, instances.nodes
    {
      instances.Valid() && |instances.nodes| + destroyed == constructed
    }

    constructor ()
      ensures Valid() && fresh(instances) && fresh(instances.root) && instances.nodes == []
      ensures constructed == 0 && destroyed == 0
    {
      instances := new LinkedList();
      constructed, destroyed := 0, 0;
    }

    method Construct() returns (tracker: LinkNode)
      requires Valid()
      modifies this, instances, instances.root, instances.nodes
      ensures Valid() && fresh(tracker)
      ensures instances.nodes == old(instances.nodes) + [tracker]
      ensures constructed == old(constructed) + 1 && destroyed == old(destroyed)
    {
      tracker := new LinkNode();
      instances.Append(tracker);
      constructed := constructed + 1;
    }

    method Destroy(tracker: LinkNode, ghost i: nat)
      requires Valid() && i < |instances.nodes| && tracker == instances.nodes[i]
      modifies this, instances, instances.root, instances.nodes
      ensures Valid() && instances.nodes == Removed(old(instances.nodes), i)
      ensures constructed == old(constructed) && destroyed == old(destroyed) + 1
    {
      instances.RemoveFromList(tracker, i);
      destroyed := destroyed + 1;
    }

    /** The count is that of the trackers constructed and not yet destroyed. */
    method NumLiveInstances() returns (count: int)
      requires Valid()
      ensures count == constructed - destroyed
    {
      count := instances.NumLiveInstances();
    }

    /** The leak check passes exactly when all have been destroyed. */
    method CheckForLeaks() returns (clean: bool)
      requires Valid()
      ensures clean <==> constructed == destroyed
    {
      var count := instances.NumLiveInstances();
      clean := count == 0;
    }
  }
}
