/** The singly linked list that the memory map, the process list and the open-file tables are kept
    in, refined to the sequence of its values. */
module LinkedList {
  import opened Options

  class Node<T> {
    var value: T
    var next: Node?<T>

    constructor (v: T, n: Node?<T>)
      ensures value == v && next == n
    {
      value, next := v, n;
    }
  }

  /** The first position from i on that holds v, or the length. */
  function IndexOf<T(==)>(s: seq<T>, v: T, i: nat): (r: nat)
    requires i <= |s|
    ensures i <= r <= |s| && (r < |s| ==> s[r] == v)
    ensures forall k :: i <= k < r ==> s[k] != v
    decreases |s| - i
  {
    if i < |s| && s[i] != v then IndexOf(s, v, i + 1) else i
  }

  /** s without its first v. */
  function Without<T(==)>(s: seq<T>, v: T): seq<T> {
    var i := IndexOf(s, v, 0);
    if i < |s| then s[..i] + s[i + 1..] else s
  }

  /** s with v before position i, or at the end when there is no such position. */
  function Inserted<T>(s: seq<T>, v: T, i: nat): seq<T> {
    if i >= |s| then s + [v] else s[..i] + [v] + s[i..]
  }

  lemma InsertDistinct<T>(s: seq<T>, v: T, i: nat)
    requires v !in s && i < |s| && forall j, k :: 0 <= j < k < |s| ==> s[j] != s[k]
    ensures forall j, k :: 0 <= j < k < |s| + 1 ==> (s[..i] + [v] + s[i..])[j] != (s[..i] + [v] + s[i..])[k]
  {
    var t := s[..i] + [v] + s[i..];
    forall j, k | 0 <= j < k < |t|
      ensures t[j] != t[k]
    {
      assert j != i ==> t[j] == s[if j < i then j else j - 1];
      assert k != i ==> t[k] == s[if k < i then k else k - 1];
    }
  }

  class List<T(==)> {
    var first: Node?<T>
    var length: int
    ghost var nodes: seq<Node<T>>

    ghost predicate Valid()
      reads this, nodes
    {
      && length == |nodes|
      && first == (if |nodes| == 0 then null else nodes[0])
      && (forall i, j :: 0 <= i < j < |nodes| ==> nodes[i] != nodes[j])
      && (|nodes| > 0 ==> nodes[|nodes| - 1].next == null)
      && forall i, j :: 0 <= i && j == i + 1 && j < |nodes| ==> nodes[i].next == nodes[j]
    }

    ghost function Contents(): (s: seq<T>)
      reads this, nodes
      ensures |s| == |nodes| && forall i :: 0 <= i < |s| ==> s[i] == nodes[i].value
    {
      seq(|nodes|, i requires 0 <= i < |nodes| reads this, nodes => nodes[i].value)
    }

    constructor ()
      ensures Valid() && Contents() == [] && fresh(nodes)
    {
      first, length, nodes := null, 0, [];
    }

    method Add(v: T)
      requires Valid()
      modifies this, nodes
      ensures Valid() && Contents() == old(Contents()) + [v]
      ensures fresh(set n | n in nodes && n !in old(nodes))
    {
      var node := new Node(v, null);
      if first == null {
        first := node;
        length := 1;
        nodes := [node];
        return;
      }
      var current := first;
      ghost var i := 0;
      while current.next != null
        invariant 0 <= i < |nodes| && current == nodes[i] && Valid() && unchanged(this) && unchanged(nodes)
        invariant i + 1 < |nodes| ==> current.next == nodes[i + 1]
        decreases |nodes| - i
      {
        current := current.next;
        i := i + 1;
      }
      current.next := node;
      length := length + 1;
      nodes := nodes + [node];
    }

    method AddAt(v: T, index: nat)
      requires Valid()
      modifies this, nodes
      ensures Valid() && Contents() == Inserted(old(Contents()), v, index)
    {
      if index > length - 1 {
        Add(v);
        return;
      }
      if index == 0 {
        AddFirst(v);
        return;
      }
      var at := first;
      var i := 0;
      while i < index - 1
        invariant 0 <= i < index && at == nodes[i]
      {
        at := at.next;
        i := i + 1;
      }
      var node := new Node(v, at.next);
      LinkAfter(at, node, i);
    }

    method AddFirst(v: T)
      requires Valid() && length > 0
      modifies this
      ensures Valid() && Contents() == Inserted(old(Contents()), v, 0)
    {
      length := length + 1;
      first := new Node(v, first);
      nodes := [first] + nodes;
      assert nodes[0].next == nodes[1];
    }

    /** Links a new node in after the one at position i. */
    method LinkAfter(at: Node<T>, node: Node<T>, ghost i: nat)
      requires Valid() && i + 1 < |nodes| && at == nodes[i] && node !in nodes && node.next == at.next
      modifies this, at`next
      ensures Valid() && Contents() == Inserted(old(Contents()), node.value, i + 1)
    {
      ghost var was, c := nodes, Contents();
      InsertDistinct(was, node, i + 1);
      at.next := node;
      length := length + 1;
      nodes := was[..i + 1] + [node] + was[i + 1..];
      assert forall k: nat :: k <= i ==> nodes[k] == was[k];
      assert forall k: nat :: i + 1 < k < |nodes| ==> nodes[k] == was[k - 1];
      forall k: nat, l: nat | l == k + 1 && l < |nodes|
        ensures nodes[k].next == nodes[l]
      {
        if k < i {
          assert was[k].next == was[l];
        } else if k > i + 1 {
          assert was[k - 1].next == was[l - 1];
        } else if k == i + 1 {
          assert old(was[i].next) == was[i + 1];
        }
      }
      assert Valid();
      forall k: nat | k < |nodes|
        ensures nodes[k].value == Inserted(c, node.value, i + 1)[k]
      {
      }
    }

    method Remove(v: T)
      requires Valid()
      modifies this, nodes
      ensures Valid() && Contents() == Without(old(Contents()), v)
    {
      if length == 0 { return; }
      var current := first;
      if current.value == v {
        RemoveFirst();
        return;
      }
      var prev := current;
      current := current.next;
      ghost var i := 1;
      while current != null && current.value != v
        invariant 1 <= i <= |nodes| && prev == nodes[i - 1] && current == (if i < |nodes| then nodes[i] else null)
        invariant IndexOf(Contents(), v, i) == IndexOf(Contents(), v, 0)
        decreases |nodes| - i
      {
        prev := current;
        current := current.next;
        i := i + 1;
      }
      if current != null {
        UnlinkAfter(prev, current, i);
      }
    }

    method RemoveFirst()
      requires Valid() && length > 0
      modifies this
      ensures Valid() && Contents() == old(Contents())[1..]
    {
      first := first.next;
      length := length - 1;
      nodes := nodes[1..];
    }

    /** Unlinks the node at position i, which comes after prev. */
    method UnlinkAfter(prev: Node<T>, current: Node<T>, ghost i: nat)
      requires Valid() && 1 <= i < |nodes| && prev == nodes[i - 1] && current == nodes[i]
      modifies this, prev
      ensures Valid() && Contents() == old(Contents())[..i] + old(Contents())[i + 1..]
    {
      ghost var was := nodes;
      prev.next := current.next;
      length := length - 1;
      nodes := was[..i] + was[i + 1..];
      forall k: nat, l: nat | l == k + 1 && l < |nodes|
        ensures nodes[k].next == nodes[l]
      {
        if k < i - 1 {
          assert was[k].next == was[l];
        } else if k > i - 1 {
          assert was[k + 1].next == was[l + 1];
        } else {
          assert old(was[i].next) == was[i + 1];
        }
      }
    }

    method Get(index: int) returns (v: Option<T>)
      requires Valid()
      ensures v == if 0 <= index < |Contents()| then Some(Contents()[index]) else None
    {
      if index < 0 || index >= length { return None; }
      var current := first;
      var i := 0;
      while i < index
        invariant 0 <= i <= index && current == nodes[i]
      {
        current := current.next;
        i := i + 1;
      }
      return Some(current.value);
    }
  }
}
