/** The memory cache: a hash table and a list ordered by last use over reference-counted records.
    Each method is one section that the source protects by its mutex, so a run of the cache under
    any number of threads is a sequence of calls. */
module Cache {
  import opened Sequences
  import opened LinkedList
  import AlignHash

  const MAX_ITEMS := 500
  const CACHED_TIME := 30000000

  /** `nxweb_cache_rec`: the part that is set when it is made (the record's own copy of its key lies
      behind its content), and the part that changes. */
  datatype Info = Info(key: string, lastModified: int, content: seq<int>)

  datatype Use = Use(expires: int, refCount: nat)

  type Rec = Node<Info, Use>

  datatype Lookup = Miss | Revalidate | NotModified | Hit(rec: Rec)

  /** When each answer is given: a record is current up to its expiry, and again if it was revalidated; such
      a one is served, unless the client has it; one that is not must be revalidated, or is gone if it was. */
  predicate Answered(found: Lookup, rec: Rec, expires: int, ifModifiedSince: int, revalidatedMtime: int, loopTime: int) {
    var current := loopTime <= expires || rec.made.lastModified == revalidatedMtime;
    var known := ifModifiedSince != 0 && rec.made.lastModified <= ifModifiedSince;
    && (found == NotModified <==> current && known)
    && (found == Hit(rec) <==> current && !known)
    && (found == Revalidate <==> !current && revalidatedMtime == 0)
    && (found == Miss <==> !current && revalidatedMtime != 0)
  }

  /** The table maps each key to a record with that key, and the list holds the same records. */
  ghost predicate Agree(m: map<string, Node?<Info, Use>>, s: seq<Rec>) {
    && (forall k :: k in m ==> m[k] != null && m[k] in s && m[k].made.key == k)
    && (forall i :: 0 <= i < |s| ==> s[i].made.key in m && m[s[i].made.key] == s[i])
  }

  lemma AgreeRemove(m: map<string, Node?<Info, Use>>, s: seq<Rec>, i: nat)
    requires Agree(m, s) && NoDuplicates(s) && i < |s|
    ensures Agree(m - {s[i].made.key}, Without(s, i)) && |m - {s[i].made.key}| == |m| - 1
  {
    var m', t := m - {s[i].made.key}, Without(s, i);
    WithoutDistinct(s, i);
    assert m'.Keys == m.Keys - {s[i].made.key};
    forall k | k in m' ensures m'[k] != null && m'[k] in t && m'[k].made.key == k {
      assert m[k] in Elems(s) - {s[i]};
      assert m[k] in Elems(t);
    }
    forall j | 0 <= j < |t| ensures t[j].made.key in m' && m'[t[j].made.key] == t[j] {
      var l := if j < i then j else j + 1;
      assert t[j] == s[l] && s[l] != s[i];
    }
  }

  lemma AgreeInsert(m: map<string, Node?<Info, Use>>, s: seq<Rec>, r: Rec)
    requires Agree(m, s) && r.made.key !in m
    ensures Agree(m[r.made.key := r], [r] + s) && r !in s
  {
    var m', t := m[r.made.key := r], [r] + s;
    forall j | 0 <= j < |t| ensures t[j].made.key in m' && m'[t[j].made.key] == t[j] {
      if j > 0 { assert t[j] == s[j - 1]; }
    }
    forall k | k in m' ensures m'[k] != null && m'[k] in t && m'[k].made.key == k {
      if k != r.made.key { assert m[k] in s; } else { assert t[0] == r; }
    }
  }

  lemma AgreeReorder(m: map<string, Node?<Info, Use>>, s: seq<Rec>, t: seq<Rec>)
    requires Agree(m, s) && Elems(s) == Elems(t)
    ensures Agree(m, t)
  {
    forall k | k in m ensures m[k] != null && m[k] in t && m[k].made.key == k {
      assert m[k] in Elems(s);
      assert m[k] in Elems(t);
    }
    forall j | 0 <= j < |t| ensures t[j].made.key in m && m[t[j].made.key] == t[j] {
      assert t[j] in Elems(t);
      assert t[j] in Elems(s);
    }
  }

  /** `t` is the list `s` without the record `r` that is in it. */
  ghost predicate TakenOut(s: seq<Rec>, r: Rec, t: seq<Rec>) {
    forall i: nat :: i < |s| && s[i] == r ==> t == Without(s, i)
  }

  /** `t` is the list `s` with the record `r` that is in it moved to the head. */
  ghost predicate MovedToHead(s: seq<Rec>, r: Rec, t: seq<Rec>) {
    t != [] && t[0] == r && TakenOut(s, r, t[1..])
  }

  /** The list, most recently used first, without `n` of the records that nobody holds, or as many as there
      are: the ones least recently used go first. */
  ghost function Trim(s: seq<Rec>, held: multiset<Rec>, n: nat): (t: seq<Rec>)
    decreases |s|
  {
    if n == 0 || s == [] then s
    else
      var k := |s| - 1;
      if s[k] in held then Trim(s[..k], held, n) + [s[k]] else Trim(s[..k], held, n - 1)
  }

  lemma {:induction false} TrimVictim(s: seq<Rec>, held: multiset<Rec>, n: nat, i: nat)
    requires n > 0 && i < |s| && s[i] !in held && forall j :: i < j < |s| ==> s[j] in held
    ensures Trim(s, held, n) == Trim(Without(s, i), held, n - 1)
    decreases |s|
  {
    var k := |s| - 1;
    if i == k {
      assert Without(s, i) == s[..k];
    } else {
      TrimVictim(s[..k], held, n, i);
      var u, v := Without(s, i), Without(s[..k], i);
      assert s[i + 1..] == s[..k][i + 1..] + [s[k]] && s[..i] == s[..k][..i];
      assert u == v + [s[k]] && u[..|u| - 1] == v;
    }
  }

  lemma {:induction false} TrimHeld(s: seq<Rec>, held: multiset<Rec>, n: nat)
    requires forall j :: 0 <= j < |s| ==> s[j] in held
    ensures Trim(s, held, n) == s
    decreases |s|
  {
    if n > 0 && s != [] {
      TrimHeld(s[..|s| - 1], held, n);
      assert s[..|s| - 1] + [s[|s| - 1]] == s;
    }
  }

  /** A record that is held stays. One that nobody holds goes only if all such behind it, which were used
      less recently, go too; and it goes if too few others can. */
  lemma {:induction false} TrimLru(s: seq<Rec>, held: multiset<Rec>, n: nat, i: nat)
    requires NoDuplicates(s) && i < |s|
    ensures forall r :: r in Trim(s, held, n) ==> r in s
    ensures s[i] in held ==> s[i] in Trim(s, held, n)
    ensures s[i] !in Trim(s, held, n) ==> forall j :: i <= j < |s| && s[j] !in held ==> s[j] !in Trim(s, held, n)
    ensures |Trim(s, held, n)| + n >= |s|
    ensures s[i] !in held && s[i] in Trim(s, held, n) ==> |Trim(s, held, n)| + n == |s|
    decreases |s|
  {
    var k := |s| - 1;
    if n > 0 {
      var m := if s[k] in held then n else n - 1;
      TrimIn(s[..k], held, m);
      if i < k { TrimLru(s[..k], held, m, i); }
    }
  }

  lemma {:induction false} TrimIn(s: seq<Rec>, held: multiset<Rec>, n: nat)
    ensures |Trim(s, held, n)| + n >= |s| && forall r :: r in Trim(s, held, n) ==> r in s
    decreases |s|
  {
    if n > 0 && s != [] {
      var k := |s| - 1;
      TrimIn(s[..k], held, if s[k] in held then n else n - 1);
    }
  }

  lemma TrimNone(s: seq<Rec>, held: multiset<Rec>)
    ensures Trim(s, held, 0) == s
  {
  }

  function Excess(n: nat): (r: nat) {
    if n > MAX_ITEMS then n - MAX_ITEMS else 0
  }

  /** From records `a` to records `b`, with `x` and `y` the ones freed and `l` and `m` the listed ones: those gone
      are freed, not listed, and not held. */
  ghost predicate Gone(a: set<Rec>, b: set<Rec>, x: set<Rec>, y: set<Rec>, l: set<Rec>, m: set<Rec>, held: multiset<Rec>) {
    b <= a && y == x + (a - b) && m == l - (a - b) && forall r :: r in a - b ==> r !in held
  }

  lemma GoneMore(a: set<Rec>, b: set<Rec>, c: set<Rec>, x: set<Rec>, y: set<Rec>, z: set<Rec>,
                 l: set<Rec>, m: set<Rec>, n: set<Rec>, held: multiset<Rec>)
    requires Gone(a, b, x, y, l, m, held) && Gone(b, c, y, z, m, n, held)
    ensures Gone(a, c, x, z, l, n, held)
  {
    assert a - c == (a - b) + (b - c);
  }

  lemma OneGone(a: set<Rec>, x: set<Rec>, l: set<Rec>, held: multiset<Rec>, r: Rec)
    requires r in a && r !in held
    ensures Gone(a, a - {r}, x, x + {r}, l, l - {r}, held)
  {
    assert a - (a - {r}) == {r};
  }

  lemma NoneGone(a: set<Rec>, x: set<Rec>, l: set<Rec>, held: multiset<Rec>)
    ensures Gone(a, a, x, x, l, l, held)
  {
  }

  /** The references handed out and not returned are the counts of the records.  A record exists
      as long as it is in the list or held, or is one of the `spare` ones that a section under way
      has still to free.  A record outside the list has no links. */
  ghost predicate Counted(s: seq<Rec>, recs: set<Rec>, held: multiset<Rec>, spare: set<Rec>)
    reads recs
  {
    && recs == Elems(s) + (set r | r in held) + spare
    && (forall r :: r in recs ==> r.data.refCount == held[r])
    && (forall r :: r in recs && r !in s ==> r.prev == null && r.next == null)
  }

  lemma InElems(s: seq<Rec>, r: Rec)
    ensures r in s <==> r in Elems(s)
  {
  }

  class Cache {
    const table: AlignHash.Table<string, Node?<Info, Use>>
    const list: List<Info, Use>
    ghost var recs: set<Rec>
    ghost var held: multiset<Rec>
    ghost var freed: set<Rec>

    ghost predicate Listed(spare: set<Rec>)
      reads this, list, list.s, recs
    {
      list.Valid() && Counted(list.s, recs, held, spare) && recs !! freed
    }

    ghost predicate Valid()
      reads this, table, table.Repr(), list, list.s, recs
    {
      table.Valid() && Listed({}) && Agree(table.contents, list.s)
    }

    constructor (hash: string -> nat)
      ensures Valid() && table.contents == map[] && recs == {} && freed == {} && held == multiset{}
      ensures fresh(table.Repr()) && fresh(list)
    {
      table := new AlignHash.Table(hash);
      list := new List<Info, Use>();
      recs, held, freed := {}, multiset{}, {};
    }

    // ---------------------------------------------------------------- steps on the records

    method Unlink(rec: Rec, ghost i: nat)
      requires Listed({}) && i < |list.s| && list.s[i] == rec
      modifies list, Elems(list.s)`prev, Elems(list.s)`next
      ensures Listed(if rec in held then {} else {rec}) && list.s == Without(old(list.s), i) && rec !in list.s
    {
      ghost var s := list.s;
      WithoutDistinct(s, i);
      list.Unlink(rec, i);
      assert Elems(list.s) == Elems(s) - {rec};
      assert forall r :: r in list.s <==> r in Elems(list.s);
      assert forall r :: r in s <==> r in Elems(s);
    }

    /** `nx_free`: the record has no holder and is not in the list. */
    method Free(rec: Rec)
      requires Listed({rec}) && rec in recs && rec !in list.s && rec !in held
      modifies this`recs, this`freed
      ensures Listed({}) && recs == old(recs) - {rec} && freed == old(freed) + {rec}
    {
      recs, freed := recs - {rec}, freed + {rec};
      assert recs == Elems(list.s) + (set r | r in held) + {};
    }

    method Hold(rec: Rec)
      requires Listed({}) && rec in recs
      modifies this`held, rec`data
      ensures Listed({}) && held == old(held) + multiset{rec} && rec.data.expires == old(rec.data.expires)
    {
      rec.data := rec.data.(refCount := rec.data.refCount + 1);
      held := held + multiset{rec};
    }

    method Release(rec: Rec)
      requires Listed({}) && rec in held
      modifies this`held, rec`data
      ensures held == old(held) - multiset{rec} && rec.data.expires == old(rec.data.expires)
      ensures Listed(if rec in list.s || rec in held then {} else {rec})
    {
      hide NoDuplicates, Chained, Elems;
      ghost var before := set r | r in held;
      rec.data := rec.data.(refCount := rec.data.refCount - 1);
      held := held - multiset{rec};
      assert (set r | r in held) == if rec in held then before else before - {rec};
      assert rec in list.s <==> rec in Elems(list.s) by { InElems(list.s, rec); }
    }

    /** Links a new record to the head. */
    method Adopt(rec: Rec)
      requires Listed({}) && rec !in recs && rec !in freed && rec.data.refCount == 0
      modifies this`recs, list, rec`prev, rec`next, Elems(list.s)`prev
      ensures Listed({}) && list.s == [rec] + old(list.s) && recs == old(recs) + {rec}
    {
      ghost var s := list.s;
      assert rec !in Elems(s);
      list.PushFront(rec);
      recs := recs + {rec};
      assert Elems(list.s) == Elems(s) + {rec};
      assert forall r :: r in list.s <==> r in Elems(list.s);
    }

    /** Relinks a record to the head. */
    method Touch(rec: Rec, ghost i: nat)
      requires Listed({}) && i < |list.s| && list.s[i] == rec
      modifies list, Elems(list.s)`prev, Elems(list.s)`next
      ensures Listed({}) && list.s == [rec] + Without(old(list.s), i)
    {
      ghost var s := list.s;
      WithoutDistinct(s, i);
      list.Unlink(rec, i);
      assert rec !in Elems(list.s);
      list.PushFront(rec);
      assert Elems(list.s) == Elems(s);
      assert forall r :: r in list.s <==> r in Elems(list.s);
      assert forall r :: r in s <==> r in Elems(s);
    }
  
    /** The table's memory is not the records'. */
    lemma Apart()
      ensures this as object !in table.Repr() && list as object !in table.Repr()
      ensures forall r :: r in recs ==> r as object !in table.Repr()
    {
    }

    // Table operations leave the records alone.

    method DeleteKey(x: nat, ghost key: string, ghost spare: set<Rec>)
      requires table.Valid() && Listed(spare) && key in table.contents && key in table.pos && x == table.pos[key]
      modifies table.Repr()
      ensures table.Valid() && Listed(spare) && table.Repr() == old(table.Repr())
      ensures table.contents == old(table.contents) - {key}
      ensures recs == old(recs) && held == old(held) && freed == old(freed) && list.s == old(list.s)
    {
      hide AlignHash.Table.Valid, AlignHash.Ok, Chained, NoDuplicates, Counted;
      Apart();
      table.DeleteKey(x, key);
    }

    method InsertKey(rec: Rec) returns (x: nat, ret: AlignHash.Insertion)
      requires table.Valid() && Listed({}) && rec !in recs
      modifies table.Repr()
      ensures table.Valid() && Listed({}) && fresh(table.Repr() - old(table.Repr()))
      ensures recs == old(recs) && held == old(held) && freed == old(freed) && list.s == old(list.s)
      ensures ret == AlignHash.Refused <==> old(table.nused) >= old(table.sup) && old(table.nbucket) == AlignHash.MAX_BUCKETS
      ensures ret == AlignHash.Refused ==> table.contents == old(table.contents)
      ensures ret != AlignHash.Refused ==>
                && rec.made.key in table.contents && rec.made.key in table.pos && x == table.pos[rec.made.key]
                && (ret == AlignHash.InsErr <==> rec.made.key in old(table.contents))
                && table.contents == if ret == AlignHash.InsErr then old(table.contents) else old(table.contents)[rec.made.key := rec]
    {
      hide AlignHash.Table.Valid, AlignHash.Ok, Chained, NoDuplicates, Counted;
      Apart();
      x, ret := table.Set(rec.made.key);
      if ret != AlignHash.Refused && ret != AlignHash.InsErr {
        ghost var m := table.contents;
        Apart();
        table.PutValueOf(x, rec, rec.made.key);
        assert table.contents == old(table.contents)[rec.made.key := rec];
      }
    }

    lemma ListedKey(i: nat)
      requires Listed({}) && Agree(table.contents, list.s) && i < |list.s|
      ensures var m, key := table.contents, list.s[i].made.key;
              && key in m && m[key] == list.s[i]
              && Agree(m - {key}, Without(list.s, i)) && |m - {key}| == |m| - 1
    {
      AgreeRemove(table.contents, list.s, i);
    }

    // ---------------------------------------------------------------- eviction

    /** The least recently used record without holders. */
    method FindVictim() returns (rec: Node?<Info, Use>, ghost i: nat)
      requires Listed({})
      ensures rec == null ==> forall r :: r in list.s ==> r.data.refCount > 0
      ensures rec != null ==>
                && i < |list.s| && list.s[i] == rec && rec.data.refCount == 0
                && forall j :: i < j < |list.s| ==> list.s[j].data.refCount > 0
    {
      rec, i := list.last, |list.s|;
      if rec != null { i := i - 1; }
      while rec != null && rec.data.refCount > 0
        invariant if rec == null then i == 0 || list.s == [] else i < |list.s| && list.s[i] == rec
        invariant rec != null ==> forall j :: i < j < |list.s| ==> list.s[j].data.refCount > 0
        invariant rec == null ==> forall j :: 0 <= j < |list.s| ==> list.s[j].data.refCount > 0
        decreases if rec == null then 0 else i + 1
      {
        assert LinkedAt(list.s, i);
        rec := rec.prev;
        if i > 0 { i := i - 1; }
      }
    }

    /** Takes a record without holders out of the list and frees it. */
    method Drop(rec: Rec, ghost i: nat)
      requires Listed({}) && i < |list.s| && list.s[i] == rec && rec.data.refCount == 0
      modifies this`recs, this`freed, list, Elems(list.s)`prev, Elems(list.s)`next
      ensures Listed({}) && list.s == Without(old(list.s), i) && Elems(list.s) == old(Elems(list.s)) - {rec}
      ensures recs == old(recs) - {rec} && freed == old(freed) + {rec} && rec in old(recs) && rec !in held
      ensures held == old(held)
    {
      WithoutDistinct(list.s, i);
      Unlink(rec, i);
      Free(rec);
    }

    /** Takes a record without holders out of the table too. */
    method Evict(rec: Rec, ghost i: nat)
      requires Valid() && i < |list.s| && list.s[i] == rec && rec.data.refCount == 0
      modifies this`recs, this`freed, list, table.Repr(), Elems(list.s)`prev, Elems(list.s)`next
      ensures Valid() && table.Repr() == old(table.Repr())
      ensures table.contents == old(table.contents) - {rec.made.key} && |table.contents| == |old(table.contents)| - 1
      ensures list.s == Without(old(list.s), i) && Elems(list.s) == old(Elems(list.s)) - {rec}
      ensures recs == old(recs) - {rec} && freed == old(freed) + {rec} && rec in old(recs) && rec !in held
      ensures held == old(held)
    {
      hide Agree, Listed, AlignHash.Table.Valid, AlignHash.Ok, NoDuplicates, Without;
      ListedKey(i);
      ListedRec(rec);
      Unheld(rec, {});
      ListDistinct();
      WithoutDistinct(list.s, i);
      var x := table.Get(rec.made.key);
      Unlink(rec, i);
      DeleteKey(x, rec.made.key, {rec});
      Free(rec);
    }

    lemma HeldFrom(k: nat)
      requires Listed({}) && k <= |list.s| && forall j :: k <= j < |list.s| ==> list.s[j].data.refCount > 0
      ensures forall j :: k <= j < |list.s| ==> list.s[j] in held
    {
      hide Listed;
      forall j | k <= j < |list.s| ensures list.s[j] in held {
        ListedRec(list.s[j]);
        Unheld(list.s[j], {});
      }
    }

    lemma TrimNext(rec: Rec, i: nat, n: nat)
      requires Listed({}) && n > 0 && i < |list.s| && list.s[i] == rec && rec.data.refCount == 0
      requires forall j :: i < j < |list.s| ==> list.s[j].data.refCount > 0
      ensures Trim(list.s, held, n) == Trim(Without(list.s, i), held, n - 1)
    {
      hide Listed;
      HeldFrom(i + 1);
      ListedRec(rec);
      Unheld(rec, {});
      TrimVictim(list.s, held, n, i);
    }

    /** `cache_check_size`: while there are more than 500 records, the ones that nobody holds go, the least
        recently used first. */
    method CheckSize()
      requires Valid()
      modifies this`recs, this`freed, list, table.Repr(), Elems(list.s)`prev, Elems(list.s)`next
      ensures Valid() && table.Repr() == old(table.Repr())
      ensures |table.contents| <= 500 || forall r :: r in list.s ==> r.data.refCount > 0
      ensures Gone(old(recs), recs, old(freed), freed, old(Elems(list.s)), Elems(list.s), held)
      ensures table.contents.Items <= old(table.contents).Items
      ensures held == old(held) && (|old(table.contents)| <= 500 ==> recs == old(recs))
      ensures list.s == Trim(old(list.s), held, if |old(table.contents)| > 500 then |old(table.contents)| - 500 else 0)
    {
      hide AlignHash.Ok, Agree, Listed, NoDuplicates, AlignHash.Table.Valid, Trim, Gone, Elems;
      var n := table.Size();
      NoneGone(recs, freed, Elems(list.s), held);
      while n > MAX_ITEMS
        invariant Valid() && table.Repr() == old(table.Repr()) && n == |table.contents|
        invariant Gone(old(recs), recs, old(freed), freed, old(Elems(list.s)), Elems(list.s), held)
        invariant Elems(list.s) <= old(Elems(list.s))
        invariant table.contents.Items <= old(table.contents).Items
        invariant held == old(held) && (|old(table.contents)| <= MAX_ITEMS ==> recs == old(recs))
        invariant Trim(list.s, held, Excess(n)) == Trim(old(list.s), held, Excess(|old(table.contents)|))
        decreases n
      {
        ghost var was, gone, listed := recs, freed, Elems(list.s);
        var none := EvictLast(Excess(n));
        GoneMore(old(recs), was, recs, old(freed), gone, freed, old(Elems(list.s)), listed, Elems(list.s), held);
        if none { return; }
        n := table.Size();
      }
      TrimNone(list.s, held);
    }

    /** One round: the last record without holders goes, if there is one. */
    method EvictLast(ghost n: nat) returns (none: bool)
      requires Valid() && n > 0
      modifies this`recs, this`freed, list, table.Repr(), Elems(list.s)`prev, Elems(list.s)`next
      ensures Valid() && table.Repr() == old(table.Repr()) && held == old(held)
      ensures Gone(old(recs), recs, old(freed), freed, old(Elems(list.s)), Elems(list.s), held)
      ensures table.contents.Items <= old(table.contents).Items
      ensures Elems(list.s) <= old(Elems(list.s))
      ensures none ==> list.s == old(list.s) == Trim(old(list.s), held, n) && forall r :: r in list.s ==> r.data.refCount > 0
      ensures !none ==> |table.contents| == |old(table.contents)| - 1 && Trim(list.s, held, n - 1) == Trim(old(list.s), held, n)
    {
      hide AlignHash.Ok, Agree, Listed, NoDuplicates, AlignHash.Table.Valid, Trim, Without;
      var rec;
      ghost var i;
      rec, i := FindVictim();
      none := rec == null;
      if none {
        HeldFrom(0);
        TrimHeld(list.s, held, n);
      } else {
        TrimNext(rec, i, n);
        Evict(rec, i);
      }
    }
  
    // ---------------------------------------------------------------- the sections

    /** Whether the table's entry for a record's key is that record. */
    lemma InTable(rec: Rec, spare: set<Rec>)
      requires Listed(spare) && Agree(table.contents, list.s) && rec in recs
      ensures rec.made.key in table.contents && table.contents[rec.made.key] == rec <==> rec in list.s
      ensures list.IsLinked(rec) <==> rec in list.s
    {
      list.IsLinkedMeans(rec);
      if rec in list.s {
        var i :| 0 <= i < |list.s| && list.s[i] == rec;
      }
    }

    /** Takes a listed record out of the table and the list and frees it. */
    method Remove(rec: Rec, x: nat, ghost i: nat)
      requires Valid() && i < |list.s| && list.s[i] == rec && rec in recs && rec !in held
      requires rec.made.key in table.pos && x == table.pos[rec.made.key]
      modifies this`recs, this`freed, list, table.Repr(), Elems(list.s)`prev, Elems(list.s)`next
      ensures Valid() && table.Repr() == old(table.Repr()) && held == old(held)
      ensures recs == old(recs) - {rec} && freed == old(freed) + {rec}
      ensures list.s == Without(old(list.s), i) && Elems(list.s) == old(Elems(list.s)) - {rec}
      ensures table.contents == old(table.contents) - {rec.made.key} && |table.contents| == |old(table.contents)| - 1
    {
      hide Listed, AlignHash.Table.Valid, AlignHash.Ok, NoDuplicates, Without, Agree;
      ListedKey(i);
      DeleteKey(x, rec.made.key, {});
      Unheld(rec, {});
      Drop(rec, i);
    }

    /** Frees a record that has just lost its last holder, taking it out of the table and the list
        if it is there. */
    method Discard(rec: Rec)
      requires table.Valid() && Agree(table.contents, list.s) && rec in recs && rec !in held
      requires Listed(if rec in list.s then {} else {rec})
      modifies this`recs, this`freed, list, table.Repr(), Elems(list.s)`prev, Elems(list.s)`next
      ensures Valid() && table.Repr() == old(table.Repr()) && held == old(held)
      ensures recs == old(recs) - {rec} && freed == old(freed) + {rec}
      ensures table.contents.Items <= old(table.contents).Items && Elems(list.s) == old(Elems(list.s)) - {rec}
      ensures rec !in old(list.s) ==> list.s == old(list.s) && table.contents == old(table.contents)
      ensures rec in old(list.s) ==> TakenOut(old(list.s), rec, list.s) && |table.contents| == |old(table.contents)| - 1
    {
      hide Listed, AlignHash.Table.Valid, AlignHash.Ok, NoDuplicates, Without, Agree;
      InTable(rec, if rec in list.s then {} else {rec});
      var x := table.Get(rec.made.key);
      var found := x != table.nbucket;
      if found {
        var v := table.ValueOf(x, rec.made.key);
        found := v == rec;
      }
      if found {
        ghost var i: nat :| i < |list.s| && list.s[i] == rec;
        OnlyAt(rec, i);
        Remove(rec, x, i);
      } else {
        InElems(list.s, rec);
        Free(rec);
      }
    }

    lemma Unheld(rec: Rec, spare: set<Rec>)
      requires Listed(spare) && rec in recs
      ensures rec.data.refCount == 0 <==> rec !in held
    {
    }

    /** `cache_rec_unref`: a holder gives its reference back. */
    method Unref(rec: Rec, loopTime: int)
      requires Valid() && rec in held
      modifies this, list, table.Repr(), recs
      ensures Valid() && table.Repr() == old(table.Repr())
      ensures held == old(held) - multiset{rec}
      ensures recs <= old(recs) && freed == old(freed) + (old(recs) - recs)
      ensures forall r :: r in freed - old(freed) ==> r !in held
      ensures var gone := rec !in held && (loopTime > old(rec.data.expires) || rec !in old(list.s)); var n := |old(table.contents)|;
              && (gone ==> rec in freed)
              && (!gone || rec !in old(list.s) ==> list.s == Trim(old(list.s), held, if n > 500 then n - 500 else 0))
              && (gone ==> forall i: nat :: i < |old(list.s)| && old(list.s)[i] == rec ==>
                    list.s == Trim(Without(old(list.s), i), held, if n > 501 then n - 501 else 0))
      ensures |table.contents| <= 500 || forall r :: r in list.s ==> r.data.refCount > 0
    {
      hide Valid, Trim, Elems;
      Sets();
      GiveBack(rec, loopTime);
      Sets();
      CheckSize();
    }

    /** The part of it before the size is checked. */
    method GiveBack(rec: Rec, loopTime: int)
      requires Valid() && rec in held
      modifies this, list, table.Repr(), recs
      ensures Valid() && table.Repr() == old(table.Repr())
      ensures held == old(held) - multiset{rec}
      ensures Gone(old(recs), recs, old(freed), freed, old(Elems(list.s)), Elems(list.s), held)
      ensures rec !in held && (loopTime > old(rec.data.expires) || rec !in old(list.s)) ==> rec in freed
      ensures rec !in freed || rec !in old(list.s) ==> list.s == old(list.s) && table.contents == old(table.contents)
      ensures rec in freed ==> rec !in held && (loopTime > old(rec.data.expires) || rec !in old(list.s))
      ensures rec in freed && rec in old(list.s) ==>
                TakenOut(old(list.s), rec, list.s) && |table.contents| == |old(table.contents)| - 1
    {
      hide Listed, AlignHash.Table.Valid, AlignHash.Ok, NoDuplicates, Without, Agree, Elems, TakenOut, Gone;
      HeldIsRec(rec);
      NotFreed(rec);
      Release(rec);
      NoneGone(recs, freed, Elems(list.s), held);
      if rec !in held { OneGone(recs, freed, Elems(list.s), held, rec); }
      Unheld(rec, if rec in list.s || rec in held then {} else {rec});
      InTable(rec, if rec in list.s || rec in held then {} else {rec});
      if rec.data.refCount == 0 {
        if loopTime > rec.data.expires || !list.IsLinked(rec) {
          Discard(rec);
        }
      }
    }

    lemma OnlyAt(rec: Rec, i: nat)
      requires Listed({}) && i < |list.s| && list.s[i] == rec
      ensures forall k: nat :: k < |list.s| && list.s[k] == rec ==> k == i
    {
    }

    lemma NotFreed(rec: Rec)
      requires Listed({}) && rec in recs
      ensures rec !in freed
    {
    }

    lemma Sets()
      requires Valid()
      ensures Elems(list.s) <= recs && recs !! freed
    {
    }

    lemma HeldIsRec(rec: Rec)
      requires Listed({}) && rec in held
      ensures rec in recs && rec !in freed && Elems(list.s) <= recs
    {
    }
  
    lemma AlreadyFirst(rec: Rec)
      requires Listed({}) && rec in list.s
      ensures rec == list.first ==> MovedToHead(list.s, rec, list.s)
    {
      if rec == list.first {
        OnlyAt(rec, 0);
        assert Without(list.s, 0) == list.s[1..];
      }
    }

    /** A found record becomes the most recently used one. */
    method Promote(rec: Rec)
      requires Valid() && rec in list.s
      modifies list, Elems(list.s)`prev, Elems(list.s)`next
      ensures Valid() && MovedToHead(old(list.s), rec, list.s) && Elems(list.s) == old(Elems(list.s))
    {
      hide AlignHash.Table.Valid, AlignHash.Ok, Agree, Counted, NoDuplicates;
      AlreadyFirst(rec);
      if rec != list.first {
        ghost var s := list.s;
        ghost var i: nat :| i < |s| && s[i] == rec;
        ListDistinct();
        WithoutDistinct(s, i);
        OnlyAt(rec, i);
        Touch(rec, i);
        assert list.s[1..] == Without(s, i);
        assert Elems(list.s) == Elems(s) by {
          assert forall r :: r in list.s <==> r == rec || r in Without(s, i);
          assert forall r :: r in Elems(Without(s, i)) <==> r in Without(s, i);
        }
        AgreeReorder(table.contents, s, list.s);
      }
    }

    lemma ListDistinct()
      requires Listed({})
      ensures NoDuplicates(list.s)
    {
    }

    /** The part of `nxweb_cache_try` for a record that has expired. */
    method RemoveExpired(rec: Rec, x: nat)
      requires Valid() && rec in list.s && rec.made.key in table.pos && x == table.pos[rec.made.key]
      modifies this`recs, this`freed, list, table.Repr(), Elems(list.s)`prev, Elems(list.s)`next
      ensures Valid() && table.Repr() == old(table.Repr()) && held == old(held)
      ensures table.contents == old(table.contents) - {rec.made.key} && TakenOut(old(list.s), rec, list.s)
      ensures if rec in held then recs == old(recs) && freed == old(freed)
              else recs == old(recs) - {rec} && freed == old(freed) + {rec}
    {
      hide Listed, AlignHash.Table.Valid, AlignHash.Ok, NoDuplicates, Without, Agree;
      ghost var i: nat :| i < |list.s| && list.s[i] == rec;
      ListedKey(i);
      ListedRec(rec);
      OnlyAt(rec, i);
      DeleteKey(x, rec.made.key, {});
      Unlink(rec, i);
      Unheld(rec, if rec in held then {} else {rec});
      if rec.data.refCount == 0 {
        Free(rec);
      }
    }

    lemma ListedRec(rec: Rec)
      requires Listed({}) && rec in list.s
      ensures rec in recs
    {
    }

    method Renew(rec: Rec, loopTime: int)
      requires Valid() && rec in list.s
      modifies rec`data
      ensures Valid() && rec.data.expires == loopTime + CACHED_TIME
    {
      hide AlignHash.Table.Valid, AlignHash.Ok, NoDuplicates, Chained;
      rec.data := rec.data.(expires := loopTime + CACHED_TIME);
    }

    /** The part of `nxweb_cache_try` for a record that has not expired. */
    method Serve(rec: Rec, ifModifiedSince: int) returns (found: Lookup)
      requires Valid() && rec in list.s && rec in recs
      modifies this`held, list, rec`data, Elems(list.s)`prev, Elems(list.s)`next
      ensures Valid() && MovedToHead(old(list.s), rec, list.s) && rec.data.expires == old(rec.data.expires)
      ensures found == if ifModifiedSince != 0 && rec.made.lastModified <= ifModifiedSince then NotModified else Hit(rec)
      ensures held == if found.Hit? then old(held) + multiset{rec} else old(held)
    {
      hide Listed, AlignHash.Table.Valid, AlignHash.Ok, NoDuplicates, Agree, MovedToHead;
      Promote(rec);
      if ifModifiedSince != 0 && rec.made.lastModified <= ifModifiedSince { return NotModified; }
      Hold(rec);
      return Hit(rec);
    }

    /** `nxweb_cache_try`; `ifModifiedSince` and `revalidatedMtime` are 0 when not given. */
    method Try(key: string, ifModifiedSince: int, revalidatedMtime: int, loopTime: int) returns (found: Lookup)
      requires Valid()
      modifies this, list, table.Repr(), recs
      ensures Valid() && table.Repr() == old(table.Repr())
      ensures recs <= old(recs) && freed == old(freed) + (old(recs) - recs)
      ensures forall r :: r in freed - old(freed) ==> r !in held
      ensures held == if found.Hit? then old(held) + multiset{found.rec} else old(held)
      ensures " " <= key || "*" <= key || key !in old(table.contents) ==>
                found == Miss && table.contents == old(table.contents) && list.s == old(list.s) && recs == old(recs)
                && forall r :: r in old(recs) ==> r.data == old(r.data)
      ensures !(" " <= key) && !("*" <= key) && key in old(table.contents) ==>
                var rec := old(table.contents)[key];
                && rec != null && rec.made.key == key
                && Answered(found, rec, old(rec.data.expires), ifModifiedSince, revalidatedMtime, loopTime)
                && table.contents == (if found == Miss then old(table.contents) - {key} else old(table.contents))
                && rec.data.expires == (if rec.made.lastModified == revalidatedMtime then loopTime + 30_000_000
                                        else old(rec.data.expires))
                && (found.Hit? || found == NotModified ==> MovedToHead(old(list.s), rec, list.s) && loopTime <= rec.data.expires)
                && (found == Miss ==> TakenOut(old(list.s), rec, list.s)) && (found == Revalidate ==> list.s == old(list.s))
                && forall r :: r in old(recs) && r != rec ==> r.data.expires == old(r.data.expires)
    {
      hide Listed, AlignHash.Table.Valid, AlignHash.Ok, NoDuplicates, Agree, TakenOut, MovedToHead;
      if key != "" && (key[0] == ' ' || key[0] == '*') { return Miss; }
      var x := table.Get(key);
      if x == table.nbucket { return Miss; }
      var rec := table.ValueOf(x, key);
      FoundRec(key);
      found := TryFound(rec, x, ifModifiedSince, revalidatedMtime, loopTime);
    }

    /** The part of `nxweb_cache_try` for a record that was found. */
    method TryFound(rec: Rec, x: nat, ifModifiedSince: int, revalidatedMtime: int, loopTime: int) returns (found: Lookup)
      requires Valid() && rec in list.s && rec in recs && rec.made.key in table.pos && x == table.pos[rec.made.key]
      requires Elems(list.s) <= recs
      modifies this, list, table.Repr(), recs
      ensures Valid() && table.Repr() == old(table.Repr())
      ensures recs <= old(recs) && freed == old(freed) + (old(recs) - recs)
      ensures forall r :: r in freed - old(freed) ==> r !in held
      ensures held == if found.Hit? then old(held) + multiset{found.rec} else old(held)
      ensures Answered(found, rec, old(rec.data.expires), ifModifiedSince, revalidatedMtime, loopTime)
      ensures table.contents == if found == Miss then old(table.contents) - {rec.made.key} else old(table.contents)
      ensures rec.data.expires == if rec.made.lastModified == revalidatedMtime then loopTime + CACHED_TIME
                                  else old(rec.data.expires)
      ensures forall r :: r in old(recs) && r != rec ==> r.data.expires == old(r.data.expires)
      ensures found.Hit? || found == NotModified ==> MovedToHead(old(list.s), rec, list.s) && loopTime <= rec.data.expires
      ensures found == Miss ==> TakenOut(old(list.s), rec, list.s)
      ensures found == Revalidate ==> list.s == old(list.s)
    {
      hide Listed, AlignHash.Table.Valid, AlignHash.Ok, NoDuplicates, Agree, TakenOut, MovedToHead;
      if rec.made.lastModified == revalidatedMtime {
        Renew(rec, loopTime);
      }
      if loopTime <= rec.data.expires {
        found := Serve(rec, ifModifiedSince);
      } else if revalidatedMtime == 0 {
        found := Revalidate;
      } else {
        RemoveExpired(rec, x);
        found := Miss;
      }
    }

    lemma FoundRec(key: string)
      requires Valid() && key in table.contents
      ensures var r := table.contents[key]; r != null && r in list.s && r.made.key == key && r in recs
      ensures Elems(list.s) <= recs
    {
    }
  
    /** The locked part of `nxweb_cache_store_response`: the record the response is served from, or
        null when the table is as large as it can get. */
    method Store(rec: Rec) returns (served: Node?<Info, Use>)
      requires Valid() && rec !in recs && rec !in freed
      requires rec.data.refCount == 0
      modifies this, list, table.Repr(), recs, rec
      ensures Valid() && fresh(table.Repr() - old(table.Repr()))
      ensures served == null <==> old(table.nused) >= old(table.sup) && old(table.nbucket) == AlignHash.MAX_BUCKETS
      ensures served == null ==> held == old(held) && table.contents == old(table.contents) && recs == old(recs)
      ensures served != null ==>
                && served == (if rec.made.key in old(table.contents) then old(table.contents)[rec.made.key] else rec)
                && served.made.key == rec.made.key && rec.made.key in table.contents && table.contents[rec.made.key] == served
                && held == old(held) + multiset{served}
      ensures served == rec ==> |table.contents| <= 500 || forall r :: r in list.s ==> r.data.refCount > 0
      ensures served == rec ==>
                list.s == Trim([rec] + old(list.s), held, if |old(table.contents)| >= 500 then |old(table.contents)| - 499 else 0)
      ensures served != rec ==> list.s == old(list.s)
      ensures recs <= old(recs) + {rec} && freed == old(freed) + (old(recs) - recs)
      ensures forall r :: r in freed - old(freed) ==> r !in held
    {
      hide Listed, AlignHash.Table.Valid, AlignHash.Ok, NoDuplicates, Agree, Trim;
      var x, ret := InsertKey(rec);
      if ret == AlignHash.Refused { return null; }
      if ret != AlignHash.InsErr {
        ListInRecs();
        StoreNew(rec, old(table.contents));
        return rec;
      }
      served := table.ValueOf(x, rec.made.key);
      FoundRec(rec.made.key);
      Hold(served);
    }

    method StoreNew(rec: Rec, ghost m: map<string, Node?<Info, Use>>)
      requires table.Valid() && Listed({}) && Agree(m, list.s) && rec.made.key !in m && table.contents == m[rec.made.key := rec]
      requires rec !in recs && rec !in freed && rec.data.refCount == 0
      modifies this, list, table.Repr(), rec, Elems(list.s)`prev, Elems(list.s)`next
      ensures Valid() && table.Repr() == old(table.Repr())
      ensures rec.made.key in table.contents && table.contents[rec.made.key] == rec && held == old(held) + multiset{rec}
      ensures |table.contents| <= 500 || forall r :: r in list.s ==> r.data.refCount > 0
      ensures list.s == Trim([rec] + old(list.s), held, if |m| >= 500 then |m| - 499 else 0)
      ensures recs <= old(recs) + {rec} && freed == old(freed) + (old(recs) - recs)
      ensures forall r :: r in freed - old(freed) ==> r !in held
    {
      hide Listed, AlignHash.Table.Valid, AlignHash.Ok, NoDuplicates, Agree, Trim;
      assert |table.contents| == |m| + 1;
      AgreeInsert(m, list.s, rec);
      LinkHeld(rec);
      CheckSize();
      HeldInTable(rec);
    }

    method LinkHeld(rec: Rec)
      requires Listed({}) && rec !in recs && rec !in freed && rec.data.refCount == 0
      modifies this, list, rec, Elems(list.s)`prev
      ensures Listed({}) && list.s == [rec] + old(list.s) && rec in Elems(list.s)
      ensures recs == old(recs) + {rec} && held == old(held) + multiset{rec} && freed == old(freed)
    {
      hide Listed;
      Adopt(rec);
      Hold(rec);
      assert list.s[0] == rec;
    }

    lemma HeldInTable(rec: Rec)
      requires Valid()
      ensures rec in Elems(list.s) ==> rec.made.key in table.contents && table.contents[rec.made.key] == rec
    {
    }

    lemma ListInRecs()
      requires Listed({})
      ensures Elems(list.s) <= recs
    {
    }
  }
}
