/** The demo corpus's singly linked list: heap nodes, a head pointer and a cached size. */
module LinkedLists {
  class Node<T> {
    var value: T
    var next: Node?<T>

    constructor (value: T)
      ensures this.value == value && next == null
    {
      this.value := value;
      next := null;
    }
  }

  /** The elements without the first occurrence of a value. */
  function WithoutFirst<T(==)>(s: seq<T>, v: T): seq<T> {
    if s == [] then [] else if s[0] == v then s[1..] else [s[0]] + WithoutFirst(s[1..], v)
  }

  /** A sequence with one position taken out. */
  function RemoveAt<T>(s: seq<T>, k: nat): (r: seq<T>)
    requires k < |s|
    ensures |r| == |s| - 1
    ensures forall i :: 0 <= i < |r| ==> r[i] == s[if i < k then i else i + 1]
  {
    s[..k] + s[k + 1..]
  }

  lemma {:induction false} WithoutFirstAt<T>(s: seq<T>, v: T, k: nat)
    requires k <= |s| && (forall i :: 0 <= i < k ==> s[i] != v) && (k < |s| ==> s[k] == v)
    ensures WithoutFirst(s, v) == if k < |s| then RemoveAt(s, k) else s
  {
    if k == 0 {
    } else {
      var rest := s[1..];
      WithoutFirstAt(rest, v, k - 1);
      assert s == [s[0]] + rest;
      if k < |s| {
        assert RemoveAt(s, k) == [s[0]] + RemoveAt(rest, k - 1);
      }
    }
  }

  /** The node at a position of a chain; past its end, null. */
  ghost function NodeAt<T>(nodes: seq<Node<T>>, i: int): Node?<T> {
    if 0 <= i < |nodes| then nodes[i] else null
  }

  class LinkedList<T(==)> {
    var head: Node?<T>
    var size: int
    /** The chain from the head and the values it holds, in order. */
    ghost var nodes: seq<Node<T>>
    ghost var contents: seq<T>

    /** The chain is acyclic, ends in null, holds exactly the contents, and the cached size is their number. */
    ghost predicate Valid()
      reads this, nodes
    {
      && size == |nodes| == |contents|
      && head == NodeAt(nodes, 0)
      && (forall i :: 0 <= i < |nodes| ==> nodes[i].next == NodeAt(nodes, i + 1))
      && (forall i :: 0 <= i < |nodes| ==> nodes[i].value == contents[i])
      && (forall i, j :: 0 <= i < j < |nodes| ==> nodes[i] != nodes[j])
    }

    constructor ()
      ensures Valid() && contents == [] && nodes == []
    {
      head := null;
      size := 0;
      nodes, contents := [], [];
    }

    method Prepend(value: T)
      requires Valid()
      modifies this
      ensures Valid() && nodes != [] && fresh(nodes[0]) && nodes[1..] == old(nodes)
      ensures contents == [value] + old(contents)
    {
      var node := new Node(value);
      assert forall i :: 0 <= i < |nodes| ==> nodes[i] != node;
      node.next := head;
      head := node;
      size := size + 1;
      ghost var before := nodes;
      nodes, contents := [node] + nodes, [value] + contents;
      assert forall i :: 0 < i < |nodes| ==> nodes[i] == before[i - 1];
    }

    method Append(value: T)
      requires Valid()
      modifies this, nodes`next
      ensures Valid() && |nodes| == old(|nodes|) + 1
      ensures nodes[..old(|nodes|)] == old(nodes) && fresh(nodes[old(|nodes|)])
      ensures contents == old(contents) + [value]
    {
      var node := new Node(value);
      assert forall i :: 0 <= i < |nodes| ==> nodes[i] != node;
      ghost var before := nodes;
      if head == null {
        head := node;
      } else {
        var cur := head;
        ghost var k := 0;
        while cur.next != null
          invariant 0 <= k < |nodes| && cur == nodes[k]
          invariant Valid()
          decreases |nodes| - k
        {
          assert nodes[k].next == NodeAt(nodes, k + 1);
          cur := cur.next;
          k := k + 1;
        }
        assert nodes[k].next == NodeAt(nodes, k + 1);
        cur.next := node;
      }
      nodes, contents := nodes + [node], contents + [value];
      size := size + 1;
      forall i | 0 <= i < |nodes| ensures nodes[i].next == NodeAt(nodes, i + 1) {
        assert i < |before| ==> nodes[i] == before[i];
      }
    }

    /** Take the node at position k out of the chain, given its predecessor. */
    method Unlink(ghost k: nat, prev: Node?<T>, cur: Node<T>)
      requires Valid() && k < |nodes| && cur == nodes[k] && prev == NodeAt(nodes, k - 1)
      modifies this, nodes`next
      ensures Valid() && nodes == old(RemoveAt(nodes, k)) && contents == old(RemoveAt(contents, k))
    {
      ghost var before := nodes;
      assert cur.next == NodeAt(nodes, k + 1);
      assert k > 0 ==> nodes[k - 1] != cur;
      if prev != null {
        prev.next := cur.next;
      } else {
        head := cur.next;
      }
      size := size - 1;
      nodes, contents := RemoveAt(nodes, k), RemoveAt(contents, k);
      forall i | 0 <= i < |nodes| ensures nodes[i].next == NodeAt(nodes, i + 1) {
        assert nodes[i] == before[if i < k then i else i + 1];
      }
    }

    method Delete(value: T) returns (found: bool)
      requires Valid()
      modifies this, nodes`next
      ensures Valid() && (forall n :: n in nodes ==> n in old(nodes))
      ensures found <==> value in old(contents)
      ensures contents == WithoutFirst(old(contents), value)
    {
      var prev: Node?<T>, cur := null, head;
      ghost var k := 0;
      while cur != null && cur.value != value
        invariant 0 <= k <= |nodes| && cur == NodeAt(nodes, k) && prev == NodeAt(nodes, k - 1)
        invariant forall i :: 0 <= i < k ==> contents[i] != value
        decreases |nodes| - k
      {
        prev, cur := cur, cur.next;
        k := k + 1;
      }
      WithoutFirstAt(contents, value, k);
      found := cur != null;
      if cur != null {
        assert contents[k] == value;
        Unlink(k, prev, cur);
      }
    }

    /** The first node with the value, or null if there is none. */
    method Search(value: T) returns (hit: Node?<T>)
      requires Valid()
      ensures hit == null <==> value !in contents
      ensures hit != null ==> exists k ::
        0 <= k < |nodes| && hit == nodes[k] && contents[k] == value && value !in contents[..k]
    {
      var cur := head;
      ghost var k := 0;
      while cur != null
        invariant 0 <= k <= |nodes|
        invariant cur == NodeAt(nodes, k)
        invariant value !in contents[..k]
        decreases |nodes| - k
      {
        if cur.value == value {
          assert contents[k] == value;
          return cur;
        }
        cur := cur.next;
        k := k + 1;
      }
      hit := null;
    }

    method ToList() returns (result: seq<T>)
      requires Valid()
      ensures result == contents && |result| == size
    {
      result := [];
      var cur := head;
      while cur != null
        invariant |result| <= |nodes| && result == contents[..|result|]
        invariant cur == NodeAt(nodes, |result|)
        decreases |nodes| - |result|
      {
        result := result + [cur.value];
        cur := cur.next;
      }
    }
  }
}
