/** The object pool `nxp_pool`: objects live in chunks, the free ones are threaded on a list. */
module Pool {
  import opened Sequences
  import opened LinkedList

  /** The header of a pooled object: its chunk's number, and whether it is in use. */
  type Obj = Node<nat, bool>

  const MAX_ITEMS := 1024

  class Chunk {
    const id: nat
    const prev: Chunk?
    const items: seq<Obj>

    constructor (id: nat, prev: Chunk?, items: seq<Obj>)
      ensures this.id == id && this.prev == prev && this.items == items
    {
      this.id, this.prev, this.items := id, prev, items;
    }
  }

  /** The chain of chunks, oldest first. */
  ghost predicate Linked(chain: seq<Chunk>) {
    && chain != []
    && forall i :: 0 <= i < |chain| ==> LinkedChunk(chain, i)
  }

  ghost predicate LinkedChunk(chain: seq<Chunk>, i: nat)
    requires i < |chain|
  {
    && chain[i].id == i + 1 && chain[i].prev == (if i == 0 then null else chain[i - 1])
    && chain[i].items != [] && NoDuplicates(chain[i].items)
  }

  /** All objects of the live chunks. */
  ghost function All(chain: seq<Chunk>): (r: set<Obj>) {
    if chain == [] then {} else All(chain[..|chain| - 1]) + Elems(chain[|chain| - 1].items)
  }

  /** Objects carry the number of their chunk, so no object is in two chunks. */
  ghost predicate Numbered(chain: seq<Chunk>, all: set<Obj>) {
    all == All(chain) && forall i :: 0 <= i < |chain| ==> Carries(chain[i].items, i + 1, all)
  }

  ghost predicate Carries(items: seq<Obj>, id: nat, all: set<Obj>) {
    forall o :: o in items ==> o in all && o.made == id
  }

  /** Exactly the objects not in use are on the free list. */
  ghost predicate Partition(all: set<Obj>, free: seq<Obj>)
    reads all`data
  {
    && (forall o :: o in free ==> o in all)
    && (forall o :: o in all ==> (o in free <==> !o.data))
  }

  ghost function Used(all: set<Obj>): (r: set<Obj>)
    reads all`data
  {
    set o | o in all && o.data
  }

  lemma {:induction false} InAll(chain: seq<Chunk>, i: nat, o: Obj)
    requires i < |chain| && o in chain[i].items
    ensures o in All(chain)
    decreases |chain|
  {
    var n := |chain| - 1;
    if i < n { InAll(chain[..n], i, o); }
  }

  lemma AllPush(chain: seq<Chunk>, c: Chunk)
    ensures All(chain + [c]) == All(chain) + Elems(c.items)
  {
    assert (chain + [c])[..|chain|] == chain;
  }

  lemma LinkedPush(chain: seq<Chunk>, c: Chunk)
    requires Linked(chain) && c.id == |chain| + 1 && c.prev == chain[|chain| - 1] && c.items != [] && NoDuplicates(c.items)
    ensures Linked(chain + [c])
  {
    forall i | 0 <= i <= |chain|
      ensures LinkedChunk(chain + [c], i)
    {
      if i < |chain| { assert LinkedChunk(chain, i); }
    }
  }

  lemma NumberedPush(chain: seq<Chunk>, c: Chunk)
    requires Numbered(chain, All(chain)) && Carries(c.items, |chain| + 1, Elems(c.items))
    ensures Numbered(chain + [c], All(chain) + Elems(c.items))
  {
    AllPush(chain, c);
    forall i | 0 <= i <= |chain|
      ensures Carries((chain + [c])[i].items, i + 1, All(chain) + Elems(c.items))
    {
      if i < |chain| { assert Carries(chain[i].items, i + 1, All(chain)); }
    }
  }

  /** Every object belongs to a chunk. */
  lemma {:induction false} ChunkOf(chain: seq<Chunk>, o: Obj) returns (i: nat)
    requires o in All(chain)
    ensures i < |chain| && o in chain[i].items
  {
    var n := |chain| - 1;
    if o in chain[n].items { i := n; } else { i := ChunkOf(chain[..n], o); }
  }

  /** No object of the last chunk is in another one. */
  lemma LastApart(chain: seq<Chunk>, all: set<Obj>)
    requires Linked(chain) && Numbered(chain, all)
    ensures var n := |chain| - 1;
            && all == All(chain[..n]) + Elems(chain[n].items)
            && All(chain[..n]) !! Elems(chain[n].items)
            && Numbered(chain[..n], All(chain[..n]))
  {
    var n := |chain| - 1;
    assert Carries(chain[n].items, n + 1, all);
    forall o | o in All(chain[..n])
      ensures o !in chain[n].items
    {
      var i := ChunkOf(chain[..n], o);
      assert Carries(chain[i].items, i + 1, all);
    }
    forall i | 0 <= i < n
      ensures Carries(chain[..n][i].items, i + 1, All(chain[..n]))
    {
      assert Carries(chain[i].items, i + 1, all);
      forall o | o in chain[i].items ensures o in All(chain[..n]) { InAll(chain[..n], i, o); }
    }
  }

  lemma PartitionMeans(all: set<Obj>, free: seq<Obj>)
    requires Partition(all, free)
    ensures forall o :: o in all ==> (o in free <==> !o.data)
    ensures forall o :: o in free ==> o in all && !o.data
  {
  }

  /** Objects of an older chunk have a smaller number. */
  lemma OlderChunk(chain: seq<Chunk>, all: set<Obj>, obj: Obj)
    requires Linked(chain) && Numbered(chain, all) && obj in all
    ensures obj.made <= chain[|chain| - 1].id == |chain|
  {
    var i := ChunkOf(chain, obj);
    assert Carries(chain[i].items, i + 1, all);
    assert LinkedChunk(chain, |chain| - 1);
  }

  /** Takes an object into use or out of it; `now` is the free list to be. */
  method SetUse(ghost chain: seq<Chunk>, ghost all: set<Obj>, obj: Obj, use: bool, ghost was: seq<Obj>, ghost now: seq<Obj>)
    requires Numbered(chain, all) && Partition(all, was) && obj in all
    requires forall o :: o in now <==> (o in was && o != obj) || (o == obj && !use)
    modifies obj`data
    ensures obj.data == use
    ensures Numbered(chain, all) && Partition(all, now)
    ensures Used(all) == if use then old(Used(all)) + {obj} else old(Used(all)) - {obj}
  {
    hide All;
    obj.data := use;
  }

  /** Fresh objects for a chunk. */
  method NewObjs(n: nat, id: nat) returns (items: seq<Obj>)
    ensures |items| == n && NoDuplicates(items)
    ensures forall o :: o in items ==> fresh(o) && o.made == id && !o.data
  {
    items := [];
    while |items| < n
      invariant |items| <= n && NoDuplicates(items)
      invariant forall o :: o in items ==> fresh(o) && o.made == id && !o.data
    {
      var o := new Node(id, false);
      items := items + [o];
    }
  }

  /** The loop of `nxp_init_chunk`. */
  method Thread(free: List<nat, bool>, items: seq<Obj>)
    requires free.Valid() && NoDuplicates(items) && Elems(items) !! Elems(free.s)
    modifies free, Elems(items)`prev, Elems(items)`next, Elems(free.s)`next
    ensures free.Valid() && free.s == old(free.s) + items
  {
    var k := 0;
    while k < |items|
      invariant 0 <= k <= |items| && free.Valid() && free.s == old(free.s) + items[..k]
    {
      assert items[k] in Elems(items) && items[k] !in items[..k];
      free.PushBack(items[k]);
      assert items[..k] + [items[k]] == items[..k + 1];
      k := k + 1;
    }
    assert items[..k] == items;
  }

  /** The objects of a list that are not among `gone`, in order. */
  ghost function Kept(s: seq<Obj>, gone: set<Obj>): (r: seq<Obj>) {
    if s == [] then [] else (if s[0] in gone then [] else [s[0]]) + Kept(s[1..], gone)
  }

  lemma {:induction false} KeptWithout(s: seq<Obj>, i: nat, gone: set<Obj>)
    requires i < |s| && s[i] in gone
    ensures Kept(Without(s, i), gone) == Kept(s, gone)
    decreases |s|
  {
    var t := Without(s, i);
    if i == 0 {
      assert t == s[1..];
    } else {
      assert t[0] == s[0] && t[1..] == Without(s[1..], i - 1);
      KeptWithout(s[1..], i - 1, gone);
    }
  }

  lemma {:induction false} AllKept(s: seq<Obj>, gone: set<Obj>)
    requires Elems(s) !! gone
    ensures Kept(s, gone) == s
    decreases |s|
  {
    if s != [] {
      assert s[0] in Elems(s) && Elems(s[1..]) <= Elems(s);
      AllKept(s[1..], gone);
      assert [s[0]] + s[1..] == s;
    }
  }

  /** The second loop of `nxp_gc`. */
  method Unthread(free: List<nat, bool>, items: seq<Obj>)
    requires free.Valid() && NoDuplicates(items) && Elems(items) <= Elems(free.s)
    modifies free, Elems(free.s)`prev, Elems(free.s)`next
    ensures free.Valid() && Elems(free.s) == old(Elems(free.s)) - Elems(items)
    ensures free.s == Kept(old(free.s), Elems(items))
  {
    hide Chained, Without, Kept;
    var k := 0;
    while k < |items|
      invariant 0 <= k <= |items| && free.Valid()
      invariant Elems(free.s) == old(Elems(free.s)) - Elems(items[..k])
      invariant Kept(free.s, Elems(items)) == Kept(old(free.s), Elems(items))
    {
      var obj := items[k];
      assert obj in Elems(items) && obj !in items[..k] && obj in Elems(free.s);
      ghost var i :| 0 <= i < |free.s| && free.s[i] == obj;
      WithoutDistinct(free.s, i);
      KeptWithout(free.s, i, Elems(items));
      free.Unlink(obj, i);
      assert items[..k] + [obj] == items[..k + 1];
      k := k + 1;
    }
    assert items[..k] == items;
    AllKept(free.s, Elems(items));
  }

  ghost predicate AnyUsed(items: seq<Obj>)
    reads Elems(items)`data
  {
    exists o :: o in items && o.data
  }

  /** Whether some object is in use. */
  method AnyInUse(items: seq<Obj>) returns (any: bool)
    ensures any <==> old(AnyUsed(items))
  {
    for k := 0 to |items|
      invariant forall j :: 0 <= j < k ==> !items[j].data
    {
      if items[k].data { return true; }
    }
    any := false;
  }

  lemma PartitionDrop(all: set<Obj>, free: seq<Obj>, items: seq<Obj>, rest: set<Obj>, now: seq<Obj>)
    requires Partition(all, free) && Elems(items) <= Elems(free) && Elems(now) == Elems(free) - Elems(items)
    requires all == rest + Elems(items) && rest !! Elems(items)
    ensures Partition(rest, now) && Used(rest) == Used(all)
  {
    assert forall o :: o in now <==> o in Elems(now);
    assert forall o :: o in free <==> o in Elems(free);
  }

  /** A chunk that is wholly free is on the free list. */
  lemma FreeChunk(all: set<Obj>, free: seq<Obj>, items: seq<Obj>)
    requires Partition(all, free) && Elems(items) <= all && !AnyUsed(items)
    ensures Elems(items) <= Elems(free)
  {
  }

  class Pool {
    var chunk: Chunk
    const free: List<nat, bool>
    ghost var chain: seq<Chunk>
    ghost var all: set<Obj>

    ghost predicate Valid()
      reads this, free, Elems(free.s)`prev, Elems(free.s)`next, all`data
    {
      && Linked(chain) && chunk == chain[|chain| - 1]
      && free.Valid() && Numbered(chain, all) && Partition(all, free.s)
    }

    ghost function InUse(): (r: set<Obj>)
      reads this, all`data
    {
      Used(all)
    }

    /** `nxp_init` */
    constructor (nitems: nat)
      requires nitems > 0
      ensures Valid() && InUse() == {} && |chain| == 1 && |chunk.items| == nitems
    {
      hide Linked, Numbered, Partition, NoDuplicates, Chained, All, Used;
      var items := NewObjs(nitems, 1);
      var c := new Chunk(1, null, items);
      var list := new List<nat, bool>();
      Thread(list, items);
      chunk, free, chain, all := c, list, [c], Elems(items);
      FirstChunk(c);
      assert [] + items == items;
    }

    /** `nxp_free`; the precondition is the assertion it makes.  Objects of the last chunk go to the
        end of the list, so that the last chunk can become free. */
    method Free(obj: Obj)
      requires Valid() && obj in all && obj.data
      modifies free, obj, all`prev, all`next
      ensures Valid() && InUse() == old(InUse()) - {obj}
      ensures free.s == if obj.made == chunk.id then old(free.s) + [obj] else [obj] + old(free.s)
    {
      hide Linked, Numbered, Partition, NoDuplicates, Chained, All, Used;
      PartitionMeans(all, free.s);
      OlderChunk(chain, all, obj);
      if obj.made == chunk.id {
        SetUse(chain, all, obj, false, free.s, free.s + [obj]);
        free.PushBack(obj);
      } else {
        assert obj.made < chunk.id;
        SetUse(chain, all, obj, false, free.s, [obj] + free.s);
        free.PushFront(obj);
      }
    }

    /** The growth in `nxp_alloc`. */
    method Grow()
      requires Valid() && free.s == []
      modifies this, free
      ensures Valid() && InUse() == old(InUse()) && free.s == chunk.items && |chain| == |old(chain)| + 1
      ensures |chunk.items| == if 2 * |old(chunk.items)| > 1024 then 1024 else 2 * |old(chunk.items)|
      ensures forall o :: o in chunk.items ==> fresh(o)
    {
      hide Linked, Numbered, Partition, NoDuplicates, Chained, All, Used;
      var nitems := |chunk.items| * 2;
      if nitems > MAX_ITEMS { nitems := MAX_ITEMS; }
      var items := NewObjs(nitems, chunk.id + 1);
      var c := new Chunk(chunk.id + 1, chunk, items);
      LastFacts(chain);
      Thread(free, items);
      assert [] + items == items;
      NextChunk(chain, all, c);
      chain, all := chain + [c], all + Elems(items);
      chunk := c;
    }

    /** `nxp_alloc` */
    method Alloc() returns (obj: Obj)
      requires Valid()
      modifies this, free, all`prev, all`next, all`data
      ensures Valid() && obj !in old(InUse()) && InUse() == old(InUse()) + {obj} && obj in all
      ensures if old(free.s) != [] then obj == old(free.s)[0] && free.s == old(free.s)[1..] && chain == old(chain)
              else fresh(obj) && |chain| == |old(chain)| + 1 && [obj] + free.s == chunk.items
    {
      hide Linked, Numbered, Partition, NoDuplicates, Chained, All, Used;
      PartitionMeans(all, free.s);
      free.Ends();
      if free.first == null {
        Grow();
        LastFacts(chain);
      }
      obj := Take();
    }

    method Take() returns (obj: Obj)
      requires Valid() && free.s != []
      modifies free, Elems(free.s)`prev, Elems(free.s)`next, Elems(free.s)`data
      ensures Valid() && obj == old(free.s)[0] && free.s == old(free.s)[1..]
      ensures obj !in old(InUse()) && InUse() == old(InUse()) + {obj} && obj in all
    {
      hide Linked, Numbered, Partition, NoDuplicates, Chained, All;
      PartitionMeans(all, free.s);
      ghost var was := free.s;
      assert !was[0].data;
      HeadOnce(was);
      assert forall o :: o in free.s ==> allocated(o);
      obj := free.PopFront();
      SetUse(chain, all, obj, true, was, free.s);
    }

    /** `nxp_gc`: releases the last chunk exactly if it is not the first one and wholly free. */
    method Gc() returns (released: bool)
      requires Valid()
      modifies this, free, all`prev, all`next
      ensures Valid() && InUse() == old(InUse()) && chain[0] == old(chain)[0]
      ensures released <==> |old(chain)| > 1 && !old(AnyUsed(chunk.items))
      ensures chain == if released then old(chain)[..|old(chain)| - 1] else old(chain)
      ensures free.s == if released then Kept(old(free.s), Elems(old(chunk.items))) else old(free.s)
    {
      hide Linked, Numbered, Partition, All, Used;
      LastFacts(chain);
      if chunk.prev == null { return false; }
      var any := AnyInUse(chunk.items);
      if any { return false; }
      PartitionMeans(all, free.s);
      LastApart(chain, all);
      FreeChunk(all, free.s, chunk.items);
      Drop();
      released := true;
    }

    method Drop()
      requires Valid() && |chain| > 1 && Elems(chunk.items) <= Elems(free.s)
      modifies this, free, Elems(free.s)`prev, Elems(free.s)`next
      ensures Valid() && InUse() == old(InUse()) && chain == old(chain)[..|old(chain)| - 1]
      ensures free.s == Kept(old(free.s), Elems(old(chunk.items)))
    {
      hide Linked, Numbered, Partition, NoDuplicates, Chained, All, Used;
      LastApart(chain, all);
      LinkedDrop(chain);
      ghost var n, was := |chain| - 1, free.s;
      ghost var rest := All(chain[..n]);
      Unthread(free, chunk.items);
      PartitionDrop(all, was, chunk.items, rest, free.s);
      chain, all, chunk := chain[..n], rest, chunk.prev;
    }
  }

  lemma LinkedDrop(chain: seq<Chunk>)
    requires Linked(chain) && |chain| > 1
    ensures var n := |chain| - 1;
            Linked(chain[..n]) && chain[n].prev == chain[n - 1] && NoDuplicates(chain[n].items)
  {
    var n := |chain| - 1;
    assert LinkedChunk(chain, n);
    forall i | 0 <= i < n ensures LinkedChunk(chain[..n], i) { assert LinkedChunk(chain, i); }
  }

  lemma HeadOnce(s: seq<Obj>)
    requires s != [] && NoDuplicates(s)
    ensures forall o :: o in s[1..] <==> o in s && o != s[0]
    ensures s[0] in Elems(s) && s[0] !in Elems(s[1..])
  {
  }

  lemma FirstChunk(c: Chunk)
    requires c.id == 1 && c.prev == null && c.items != [] && NoDuplicates(c.items)
    requires forall o :: o in c.items ==> o.made == 1 && !o.data
    ensures Linked([c]) && Numbered([c], Elems(c.items)) && Partition(Elems(c.items), c.items) && Used(Elems(c.items)) == {}
  {
    AllPush([], c);
    assert [] + [c] == [c] && Carries(c.items, 1, Elems(c.items));
    NumberedPush([], c);
    assert LinkedChunk([c], 0);
  }

  lemma NextChunk(chain: seq<Chunk>, all: set<Obj>, c: Chunk)
    requires Linked(chain) && Numbered(chain, all) && Partition(all, [])
    requires c.id == |chain| + 1 && c.prev == chain[|chain| - 1] && c.items != [] && NoDuplicates(c.items)
    requires forall o :: o in c.items ==> o.made == c.id && !o.data
    ensures var more := all + Elems(c.items);
            && Linked(chain + [c]) && Numbered(chain + [c], more) && Partition(more, c.items)
            && Used(more) == Used(all)
  {
    LinkedPush(chain, c);
    NumberedPush(chain, c);
    AllPush(chain, c);
  }

  lemma LastFacts(chain: seq<Chunk>)
    requires Linked(chain)
    ensures var n := |chain| - 1;
            chain != [] && chain[n].id == |chain| && chain[n].items != [] && (chain[n].prev == null <==> n == 0)
  {
    assert LinkedChunk(chain, |chain| - 1);
  }
}
