/** The doubly linked list of adlist.c. */
module Adlist {

  class ListNode<T> {
    var prev: ListNode?<T>
    var next: ListNode?<T>
    var value: T

    constructor (value: T)
      ensures this.value == value && prev == null && next == null
    {
      this.value := value;
      prev, next := null, null;
    }
  }

  predicate NoRepeats<T(==)>(s: seq<T>) { forall i, j :: 0 <= i < j < |s| ==> s[i] != s[j] }

  function Removed<T>(s: seq<T>, k: nat): (r: seq<T>)
    requires k < |s|
    ensures |r| == |s| - 1
    ensures forall i :: 0 <= i < |r| ==> r[i] == if i < k then s[i] else s[i + 1]
  {
    s[..k] + s[k + 1..]
  }

  /** The list without the first occurrence of a value. */
  function Without<T(==)>(s: seq<T>, x: T): seq<T> {
    if s == [] then [] else if s[0] == x then s[1..] else [s[0]] + Without(s[1..], x)
  }

  lemma {:induction false} WithoutMembers<T>(s: seq<T>, x: T)
    requires NoRepeats(s)
    ensures NoRepeats(Without(s, x)) && forall y :: y in Without(s, x) <==> y in s && y != x
    ensures x !in s ==> Without(s, x) == s
  {
    if s != [] {
      assert NoRepeats(s[1..]);
      if s[0] != x {
        WithoutMembers(s[1..], x);
        assert s[0] !in s[1..];
      }
    }
  }

  lemma {:induction false} WithoutIsRemoved<T>(s: seq<T>, x: T, k: nat)
    requires k < |s| && s[k] == x && x !in s[..k]
    ensures Without(s, x) == Removed(s, k)
  {
    if k > 0 {
      assert s[0] == s[..k][0] && s[1..][..k - 1] == s[..k][1..];
      WithoutIsRemoved(s[1..], x, k - 1);
    }
  }

  lemma {:induction false} WithoutNothing<T>(s: seq<T>, x: T)
    requires x !in s
    ensures Without(s, x) == s
  {
    if s != [] { WithoutNothing(s[1..], x); }
  }

  class List<T(!new,==)> {
    var head: ListNode?<T>
    var tail: ListNode?<T>
    var len: nat
    /** The nodes in order. */
    ghost var spine: seq<ListNode<T>>

    /** The neighbours of the node at position i. */
    ghost predicate Linked(i: int)
      requires 0 <= i < |spine|
      reads this, spine
    {
      && spine[i].prev == (if i == 0 then null else spine[i - 1])
      && spine[i].next == (if i == |spine| - 1 then null else spine[i + 1])
    }

    ghost predicate Valid()
      reads this, spine
    {
      && len == |spine| && NoRepeats(spine)
      && head == (if spine == [] then null else spine[0])
      && tail == (if spine == [] then null else spine[|spine| - 1])
      && forall i :: 0 <= i < |spine| ==> Linked(i)
    }

    ghost function Contents(): (s: seq<T>)
      reads this, spine
      ensures |s| == |spine|
    {
      seq(|spine|, i requires 0 <= i < |spine| reads this, spine => spine[i].value)
    }

    /** listCreate. */
    constructor ()
      ensures Valid() && spine == []
    {
      head, tail, len, spine := null, null, 0, [];
    }

    /** listAddNodeTail. */
    method AddNodeTail(value: T)
      requires Valid()
      modifies this, tail
      ensures Valid() && |spine| == |old(spine)| + 1
      ensures fresh(spine[|old(spine)|]) && spine[..|old(spine)|] == old(spine)
      ensures Contents() == old(Contents()) + [value]
    {
      var node := new ListNode(value);
      if len == 0 {
        head, tail := node, node;
      } else {
        node.prev := tail;
        tail.next := node;
        tail := node;
      }
      len := len + 1;
      spine := spine + [node];
      forall i | 0 <= i < |spine| ensures Linked(i) {
        assert i < |spine| - 1 ==> old(Linked(i));
      }
    }

    /** listDelNode: only the neighbours of the node, and the ends of the list, change. */
    method DelNode(node: ListNode<T>, ghost k: nat)
      requires Valid() && k < |spine| && spine[k] == node
      modifies this, node.prev, node.next
      ensures Valid() && spine == Removed(old(spine), k)
      ensures Contents() == Removed(old(Contents()), k)
    {
      assert Linked(k);
      ghost var before := Contents();
      if node.prev != null {
        node.prev.next := node.next;
      } else {
        head := node.next;
      }
      if node.next != null {
        node.next.prev := node.prev;
      } else {
        tail := node.prev;
      }
      len := len - 1;
      spine := Removed(spine, k);
      forall i | 0 <= i < |spine| ensures Linked(i) {
        assert if i < k then old(Linked(i)) else old(Linked(i + 1));
      }
      forall i | 0 <= i < |spine| ensures Contents()[i] == Removed(before, k)[i] {
        assert spine[i].value == old(spine[if i < k then i else i + 1].value);
      }
      assert Contents() == Removed(before, k);
    }
  }

  /** A position in a list: the node that listNext will return. */
  class ListIter<T(!new,==)> {
    var next: ListNode?<T>

    /** listRewind. */
    constructor (list: List<T>)
      requires list.Valid()
      ensures Faces(list, 0)
    {
      next := list.head;
    }

    /** The iterator will return the nodes from position i on. */
    ghost predicate Faces(list: List<T>, i: nat)
      reads this, list, list.spine
    {
      list.Valid() && i <= |list.spine| && next == if i == |list.spine| then null else list.spine[i]
    }

    /** listNext. */
    method Next(list: List<T>, ghost i: nat) returns (node: ListNode?<T>)
      requires Faces(list, i)
      modifies this
      ensures node == null <==> i == |list.spine|
      ensures node != null ==> node == list.spine[i] && Faces(list, i + 1)
      ensures node == null ==> Faces(list, i)
    {
      node := next;
      if node != null {
        assert list.Linked(i);
        next := node.next;
      }
    }

    /** The node that was just returned may be deleted: the iterator goes on behind it. */
    method DeleteReturned(list: List<T>, node: ListNode<T>, ghost i: nat)
      requires Faces(list, i + 1) && i < |list.spine| && node == list.spine[i]
      modifies list, node.prev, node.next
      ensures Faces(list, i) && list.spine == Removed(old(list.spine), i)
      ensures list.Contents() == Removed(old(list.Contents()), i)
    {
      list.DelNode(node, i);
    }
  }

  /** The node at position i is the first one that holds the value. */
  ghost predicate IsFirst<T(!new)>(list: List<T>, node: ListNode<T>, key: T, i: int)
    requires 0 <= i < |list.spine|
    reads list, list.spine
  {
    list.spine[i] == node && node.value == key && key !in list.Contents()[..i]
  }

  /** listSearchKey without a match function: the first node with the value, or none. */
  method SearchKey<T(!new,==)>(list: List<T>, key: T) returns (node: ListNode?<T>)
    requires list.Valid()
    ensures node == null ==> key !in list.Contents()
    ensures node != null ==> exists i :: 0 <= i < |list.spine| && IsFirst(list, node, key, i)
  {
    var iter := new ListIter(list);
    ghost var i := 0;
    ghost var s := list.Contents();
    node := iter.Next(list, i);
    while node != null
      invariant list.Valid() && list.Contents() == s && 0 <= i <= |list.spine|
      invariant node == null <==> i == |list.spine|
      invariant node != null ==> node == list.spine[i] && iter.Faces(list, i + 1)
      invariant key !in s[..i]
      decreases |list.spine| - i
    {
      if node.value == key {
        assert IsFirst(list, node, key, i);
        return;
      }
      i := i + 1;
      assert s[..i] == s[..i - 1] + [s[i - 1]];
      node := iter.Next(list, i);
    }
    assert s[..i] == s;
  }

  /** listSearchKey and listDelNode: the way in which a client is taken out of a list. */
  method DeleteKey<T(!new,==)>(list: List<T>, key: T)
    requires list.Valid()
    modifies list, list.spine
    ensures list.Valid() && list.Contents() == Without(old(list.Contents()), key)
  {
    var node := SearchKey(list, key);
    if node == null {
      WithoutNothing(list.Contents(), key);
    } else {
      ghost var i :| 0 <= i < |list.spine| && IsFirst(list, node, key, i);
      WithoutIsRemoved(list.Contents(), key, i);
      NeighboursInSpine(list, i);
      list.DelNode(node, i);
    }
  }

  lemma NeighboursInSpine<T(!new)>(list: List<T>, i: int)
    requires list.Valid() && 0 <= i < |list.spine|
    ensures list.spine[i].prev == null || list.spine[i].prev in list.spine
    ensures list.spine[i].next == null || list.spine[i].next in list.spine
  {
    assert list.Linked(i);
  }
}
