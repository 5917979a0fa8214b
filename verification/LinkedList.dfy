/** Doubly linked lists whose links are part of the listed object: the cache's records by last use, and
    the free list of a pool. */
module LinkedList {
  import opened Sequences

  /** A queued object: its links, the fields it was made with, and those that change. */
  class Node<K, T> {
    const made: K
    var data: T
    var prev: Node?<K, T>
    var next: Node?<K, T>

    constructor (made: K, data: T)
      ensures this.made == made && this.data == data && prev == null && next == null
    {
      this.made, this.data, prev, next := made, data, null, null;
    }
  }

  ghost function Elems<K, T>(s: seq<Node<K, T>>): (r: set<Node<K, T>>) {
    set r | r in s
  }

  ghost function Before<K, T>(s: seq<Node<K, T>>, i: nat): (r: Node?<K, T>)
    requires i < |s|
  {
    if i == 0 then null else s[i - 1]
  }

  ghost function After<K, T>(s: seq<Node<K, T>>, i: nat): (r: Node?<K, T>)
    requires i < |s|
  {
    if i == |s| - 1 then null else s[i + 1]
  }

  ghost predicate LinkedAt<K, T>(s: seq<Node<K, T>>, i: nat)
    requires i < |s|
    reads {s[i]}`prev, {s[i]}`next
  {
    s[i].prev == Before(s, i) && s[i].next == After(s, i)
  }

  /** The links of `s` from `h` to `t`. */
  ghost predicate Chained<K, T>(s: seq<Node<K, T>>, h: Node?<K, T>, t: Node?<K, T>)
    reads Elems(s)`prev, Elems(s)`next
  {
    && h == (if s == [] then null else s[0])
    && t == (if s == [] then null else s[|s| - 1])
    && forall i :: 0 <= i < |s| ==> LinkedAt(s, i)
  }

  class List<K, T> {
    var first: Node?<K, T>
    var last: Node?<K, T>
    ghost var s: seq<Node<K, T>>

    ghost predicate Valid()
      reads this, Elems(s)`prev, Elems(s)`next
    {
      NoDuplicates(s) && Chained(s, first, last)
    }

    constructor ()
      ensures Valid() && s == []
    {
      first, last, s := null, null, [];
    }

    lemma Ends()
      requires Valid()
      ensures if s == [] then first == null && last == null else first == s[0] && last == s[|s| - 1]
    {
    }

    /** Whether a node is linked, told by its own links: right for every node that is in the list or
        has no links. */
    predicate IsLinked(n: Node<K, T>)
      reads this, n
    {
      n.prev != null || first == n
    }

    lemma IsLinkedMeans(n: Node<K, T>)
      requires Valid() && (n in s || (n.prev == null && n.next == null))
      ensures IsLinked(n) <==> n in s
    {
      if n in s {
        var i: nat :| i < |s| && s[i] == n;
        assert LinkedAt(s, i);
      }
    }

    method PushBack(n: Node<K, T>)
      requires Valid() && n !in s
      modifies this, n`prev, n`next, Elems(s)`next
      ensures Valid() && s == old(s) + [n]
    {
      assert last != null ==> last in Elems(s);
      n.next := null;
      n.prev := last;
      if last != null { last.next := n; } else { first := n; }
      last := n;
      s := s + [n];
      forall k | 0 <= k < |s| ensures LinkedAt(s, k) {
        if k < |s| - 1 { assert s[k] == old(s)[k] && old(LinkedAt(s, k)); }
      }
    }

    method PushFront(n: Node<K, T>)
      requires Valid() && n !in s
      modifies this, n`prev, n`next, Elems(s)`prev
      ensures Valid() && s == [n] + old(s)
    {
      assert first != null ==> first in Elems(s);
      n.prev := null;
      n.next := first;
      if first != null { first.prev := n; } else { last := n; }
      first := n;
      s := [n] + s;
      forall k | 0 <= k < |s| ensures LinkedAt(s, k) {
        if k > 0 { assert s[k] == old(s)[k - 1] && old(LinkedAt(s, k - 1)); }
      }
    }

    method Unlink(n: Node<K, T>, ghost i: nat)
      requires Valid() && i < |s| && s[i] == n
      modifies this, Elems(s)`prev, Elems(s)`next
      ensures Valid() && s == Without(old(s), i)
      ensures n.prev == null && n.next == null
    {
      Bypass(n, i);
      BypassedIsChained(s, i, first, last);
      WithoutDistinct(s, i);
      hide NoDuplicates, Chained, Without;
      s := Without(s, i);
    }

    /** The neighbours of `n` and the ends of the list pass it by. */
    method Bypass(n: Node<K, T>, ghost i: nat)
      requires Valid() && i < |s| && s[i] == n
      modifies this`first, this`last, Elems(s)`prev, Elems(s)`next
      ensures Bypassed(s, i, first, last)
      ensures n.prev == null && n.next == null
    {
      assert LinkedAt(s, i);
      assert forall k :: 0 <= k < |s| ==> s[k] in Elems(s);
      if n.prev != null { n.prev.next := n.next; } else { first := n.next; }
      if n.next != null { n.next.prev := n.prev; } else { last := n.prev; }
      n.next := null;
      n.prev := null;
      forall j | 0 <= j < |s| && j != i ensures LinkedAround(s, i, j) {
        assert old(LinkedAt(s, j));
      }
    }

    method PopFront() returns (n: Node<K, T>)
      requires Valid() && s != []
      modifies this, Elems(s)`prev, Elems(s)`next
      ensures Valid() && n == old(s)[0] && s == old(s)[1..] && n.prev == null && n.next == null
    {
      Ends();
      n := first;
      Unlink(n, 0);
    }
  }

  ghost predicate LinkedAround<K, T>(s: seq<Node<K, T>>, i: nat, j: nat)
    requires i < |s| && j < |s|
    reads {s[j]}`prev, {s[j]}`next
  {
    && s[j].prev == (if j == i + 1 then Before(s, i) else Before(s, j))
    && s[j].next == (if j == i - 1 then After(s, i) else After(s, j))
  }

  ghost predicate Bypassed<K, T>(s: seq<Node<K, T>>, i: nat, h: Node?<K, T>, t: Node?<K, T>)
    requires i < |s|
    reads Elems(s)`prev, Elems(s)`next
  {
    && h == (if i == 0 then After(s, 0) else s[0])
    && t == (if i == |s| - 1 then Before(s, i) else s[|s| - 1])
    && forall j :: 0 <= j < |s| && j != i ==> LinkedAround(s, i, j)
  }

  lemma BypassedIsChained<K, T>(s: seq<Node<K, T>>, i: nat, h: Node?<K, T>, t: Node?<K, T>)
    requires i < |s| && Bypassed(s, i, h, t)
    ensures Chained(Without(s, i), h, t)
  {
    var w := Without(s, i);
    forall k | 0 <= k < |w| ensures LinkedAt(w, k) {
      Neighbours(s, i, k);
      assert LinkedAround(s, i, if k < i then k else k + 1);
    }
  }

  lemma WithoutDistinct<K, T>(s: seq<Node<K, T>>, i: nat)
    requires i < |s| && NoDuplicates(s)
    ensures NoDuplicates(Without(s, i)) && Elems(Without(s, i)) == Elems(s) - {s[i]}
  {
    var t := Without(s, i);
    assert forall k :: 0 <= k < |t| ==> t[k] == s[if k < i then k else k + 1];
    forall r | r in Elems(s) - {s[i]} ensures r in Elems(t) {
      var j :| 0 <= j < |s| && s[j] == r;
      assert t[if j < i then j else j - 1] == r;
    }
  }

  /** The neighbours of a node once the one at `i` has gone. */
  lemma Neighbours<K, T>(s: seq<Node<K, T>>, i: nat, k: nat)
    requires i < |s| && k < |s| - 1
    ensures var t, j := Without(s, i), if k < i then k else k + 1;
            && t[k] == s[j]
            && Before(t, k) == (if j == i + 1 then Before(s, i) else Before(s, j))
            && After(t, k) == (if j == i - 1 then After(s, i) else After(s, j))
  {
  }
}
