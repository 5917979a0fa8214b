/** `alignhash_tpl.h` as a map (the template's `_ismap`), with its default 32-bit sizes and linear
    probing; the hash is an arbitrary function of the key. */
module AlignHash {
  import opened PackedFlags
  import opened ProbeTable

  /** `alignhash_set` outcomes: the key is there, it goes into an empty bucket, or into a deleted one;
      `Refused` is the return of `nbucket` when growth is refused. */
  datatype Insertion = InsErr | InsNew | InsDel | Refused

  const MAX_BUCKETS := 0x8000_0000

  ghost predicate PowerOfTwo(n: nat) {
    n == 1 || (n > 1 && n % 2 == 0 && PowerOfTwo(n / 2))
  }

  lemma PowerOfTwoWords(n: nat)
    requires PowerOfTwo(n)
    ensures n < WORD || n % WORD == 0
  {
    if n >= WORD {
      assert PowerOfTwo(n / 2) && PowerOfTwo(n / 2 / 2) && PowerOfTwo(n / 2 / 2 / 2) && PowerOfTwo(n / 2 / 2 / 2 / 2);
    }
  }

  /** `(ah_size_t)(n * AH_LOAD_FACTOR + 0.5)` with a load factor of one half. */
  function Sup(n: nat): (r: nat) {
    (n + 1) / 2
  }

  /** The probe of the rehash: the first empty bucket on the path from `home`. */
  method FindEmpty(flags: array<bv32>, n: nat, home: nat) returns (i: nat)
    requires home < n <= WORD * flags.Length && |Used(View(flags[..], n))| < n
    requires forall j :: 0 <= j < n ==> View(flags[..], n)[j] in {Live, Empty}
    ensures i < n && View(flags[..], n)[i] == Empty && OnPath(View(flags[..], n), home, i)
  {
    i := home;
    ghost var f, t := View(flags[..], n), 0;
    var del, empty := Tests(flags, i, n);
    while !empty
      invariant 0 <= t < n && i == At(home, t, n) && Filled(f, home, t)
      invariant empty == (f[i] == Empty)
      decreases n - t
    {
      FillOne(f, home, t);
      FilledEnds(f, home, t + 1);
      i := if i + 1 < n then i + 1 else 0;
      t := t + 1;
      del, empty := Tests(flags, i, n);
    }
    DistAt(home, t, n);
  }

  /** One round of the rehash's inner loop: the entry under way goes to its bucket in the new
      table; if an entry of the old table sits there, that one is under way next. */
  method DisplaceOne<K(==, !new), V>(hash: K -> nat, old_: array<bv32>, n: nat, new_: array<bv32>, n': nat,
                                     keys: array<K>, vals: array<V>, key: K, val: V,
                                     ghost m: map<K, V>, ghost pos: map<K, nat>)
    returns (done: bool, key': K, val': V, ghost pos': map<K, nat>)
    requires n <= WORD * old_.Length && 0 < n' <= WORD * new_.Length && |m| < n'
    requires old_ != new_ && keys as object != vals
    requires keys as object !in {old_, new_} && vals as object !in {old_, new_}
    requires Moving(View(old_[..], n), View(new_[..], n'), keys[..], vals[..], m, pos, {key}, hash)
    requires key in m && m[key] == val
    modifies old_, new_, keys, vals
    ensures Moving(View(old_[..], n), View(new_[..], n'), keys[..], vals[..], m, pos', if done then {} else {key'}, hash)
    ensures !done ==> key' in m && m[key'] == val'
    ensures if done then LiveSet(View(old_[..], n)) == LiveSet(old(View(old_[..], n)))
            else LiveSet(View(old_[..], n)) < LiveSet(old(View(old_[..], n)))
  {
    ghost var f, g, ks, vs := View(old_[..], n), View(new_[..], n'), keys[..], vals[..];
    RoomToMove(f, g, ks, vs, m, pos, {key}, hash);
    var i := FindEmpty(new_, n', hash(key) % n');
    var live := false;
    if i < n {
      var del, empty := Tests(old_, i, n);
      live := !del && !empty;
    }
    ClearEmpty(new_, i, n');
    if live {
      Exchange(f, g, ks, vs, m, pos, hash, key, i);
      LiveDrops(f, i);
      pos' := (pos - {ks[i]})[key := i];
      key', keys[i] := keys[i], key;
      val', vals[i] := vals[i], val;
      SetDel(old_, i, n);
      assert keys[..] == ks[i := key] && vals[..] == vs[i := val];
      done := false;
    } else {
      PutDown(f, g, ks, vs, m, pos, {key}, hash, key, i);
      pos' := pos[key := i];
      key', val' := key, val;
      keys[i] := key;
      vals[i] := val;
      assert keys[..] == ks[i := key] && vals[..] == vs[i := val];
      assert {key} - {key} == {};
      done := true;
    }
  }

  /** The inner loop of the rehash: moves the entry of bucket `j`, and every entry that has to
      make way for another, to the new table. */
  method Displace<K(==, !new), V>(hash: K -> nat, old_: array<bv32>, n: nat, new_: array<bv32>, n': nat,
                                  keys: array<K>, vals: array<V>, j: nat,
                                  ghost m: map<K, V>, ghost pos: map<K, nat>)
    returns (ghost pos': map<K, nat>)
    requires n <= WORD * old_.Length && 0 < n' <= WORD * new_.Length && |m| < n'
    requires old_ != new_ && keys as object != vals
    requires keys as object !in {old_, new_} && vals as object !in {old_, new_}
    requires Moving(View(old_[..], n), View(new_[..], n'), keys[..], vals[..], m, pos, {}, hash)
    requires IsLive(View(old_[..], n), j)
    modifies old_, new_, keys, vals
    ensures Moving(View(old_[..], n), View(new_[..], n'), keys[..], vals[..], m, pos', {}, hash)
    ensures LiveSet(View(old_[..], n)) <= LiveSet(old(View(old_[..], n))) - {j}
  {
    var key, val := keys[j], vals[j];
    PickUp(View(old_[..], n), View(new_[..], n'), keys[..], vals[..], m, pos, hash, j);
    LiveDrops(View(old_[..], n), j);
    SetDel(old_, j, n);
    pos' := pos - {key};
    var done := false;
    while !done
      invariant Moving(View(old_[..], n), View(new_[..], n'), keys[..], vals[..], m, pos', if done then {} else {key}, hash)
      invariant !done ==> key in m && m[key] == val
      invariant LiveSet(View(old_[..], n)) <= LiveSet(old(View(old_[..], n))) - {j}
      decreases !done, LiveSet(View(old_[..], n))
    {
      done, key, val, pos' := DisplaceOne(hash, old_, n, new_, n', keys, vals, key, val, m, pos');
    }
  }

  /** `realloc`: the first elements stay. */
  method Realloc<T(0)>(a: array<T>, n: nat) returns (b: array<T>)
    ensures fresh(b) && b.Length == n
    ensures if a.Length <= n then a[..] <= b[..] else b[..] == a[..n]
  {
    b := new T[n];
    var k := if a.Length < n then a.Length else n;
    forall i | 0 <= i < k { b[i] := a[i]; }
    assert b[..k] == a[..k];
  }

  /** The outer loop of the rehash. */
  method Rehash<K(==, !new), V>(hash: K -> nat, old_: array<bv32>, n: nat, new_: array<bv32>, n': nat,
                                keys: array<K>, vals: array<V>, ghost m: map<K, V>, ghost pos: map<K, nat>)
    returns (ghost pos': map<K, nat>)
    requires n <= WORD * old_.Length && 0 < n' <= WORD * new_.Length && |m| < n'
    requires old_ != new_ && keys as object != vals
    requires keys as object !in {old_, new_} && vals as object !in {old_, new_}
    requires Moving(View(old_[..], n), View(new_[..], n'), keys[..], vals[..], m, pos, {}, hash)
    modifies old_, new_, keys, vals
    ensures Holds(View(new_[..], n'), keys[..], vals[..], m, pos')
    ensures Reachable(View(new_[..], n'), keys[..], hash)
    ensures |Used(View(new_[..], n'))| == |m|
  {
    pos' := pos;
    for j := 0 to n
      invariant Moving(View(old_[..], n), View(new_[..], n'), keys[..], vals[..], m, pos', {}, hash)
      invariant NoneLiveBelow(View(old_[..], n), j)
    {
      ghost var f := View(old_[..], n);
      var del, empty := Tests(old_, j, n);
      if !del && !empty {
        pos' := Displace(hash, old_, n, new_, n', keys, vals, j, m, pos');
      }
      NextBelow(f, View(old_[..], n), j);
    }
    Moved(View(old_[..], n), View(new_[..], n'), keys[..], vals[..], m, pos', hash);
  }

  /** The body of `alignhash_resize` once the size has been accepted. */
  method RehashInto<K(==, 0, !new), V(0)>(hash: K -> nat, flags: array<bv32>, n: nat, n': nat,
                                          keys: array<K>, vals: array<V>, ghost m: map<K, V>, ghost pos: map<K, nat>)
    returns (flags': array<bv32>, keys': array<K>, vals': array<V>, ghost pos': map<K, nat>)
    requires n <= WORD * flags.Length && keys.Length == n == vals.Length && |m| < n'
    requires n' < WORD || n' % WORD == 0
    requires flags as object != keys && flags as object != vals && keys as object != vals
    requires Holds(View(flags[..], n), keys[..], vals[..], m, pos)
    modifies flags, keys, vals
    ensures fresh(flags') && (keys' == keys || fresh(keys')) && (vals' == vals || fresh(vals'))
    ensures flags' as object != keys' && flags' as object != vals' && keys' as object != vals'
    ensures n' <= WORD * flags'.Length && keys'.Length == n' == vals'.Length
    ensures Holds(View(flags'[..], n'), keys'[..], vals'[..], m, pos')
    ensures Reachable(View(flags'[..], n'), keys'[..], hash)
    ensures |Used(View(flags'[..], n'))| == |m|
  {
    flags' := AllEmpty(n');
    keys', vals' := keys, vals;
    if n < n' {
      keys' := Realloc(keys, n');
      vals' := Realloc(vals, n');
    }
    StartMoving(View(flags[..], n), keys[..], vals[..], m, pos, View(flags'[..], n'), keys'[..], vals'[..], hash);
    pos' := Rehash(hash, flags, n, flags', n', keys', vals', m, pos);
    if n > n' {
      ghost var ks, vs := keys'[..], vals'[..];
      keys' := Realloc(keys', n');
      vals' := Realloc(vals', n');
      Truncate(View(flags'[..], n'), ks, vs, m, pos', hash, keys'[..], vals'[..]);
    }
  }

  /** The table's invariant, over its fields as values. */
  ghost predicate Ok<K(!new), V>(f: seq<Flag>, ks: seq<K>, vs: seq<V>, m: map<K, V>, pos: map<K, nat>,
                                 hash: K -> nat, size: nat, nused: nat, sup: nat)
  {
    && |f| == |ks| == |vs| && Buckets(|f|) && sup == Sup(|f|)
    && Holds(f, ks, vs, m, pos) && Reachable(f, ks, hash)
    && size == |m| && nused == |Used(f)| <= sup
  }

  /** Bucket counts: none at first, then a power of two. */
  ghost predicate Buckets(n: nat) {
    (n == 0 || (n >= 2 && PowerOfTwo(n))) && n <= MAX_BUCKETS
  }

  lemma BucketWords(n: nat)
    requires Buckets(n)
    ensures n < WORD || n % WORD == 0
    ensures n > 0 ==> Sup(n) < n
  {
    if n > 0 { PowerOfTwoWords(n); }
  }

  lemma {:induction false} NextPowerOfTwo(n: nat, m: nat)
    requires PowerOfTwo(n) && PowerOfTwo(m) && n < m
    ensures 2 * n <= m
  {
    if n > 1 { NextPowerOfTwo(n / 2, m / 2); }
  }

  lemma Twice(n: nat)
    requires PowerOfTwo(n)
    ensures PowerOfTwo(2 * n)
  {
  }

  lemma SixteenTimes(n: nat)
    requires PowerOfTwo(n)
    ensures PowerOfTwo(16 * n)
  {
    hide PowerOfTwo;
    Twice(n);
    Twice(2 * n);
    Twice(4 * n);
    Twice(8 * n);
  }

  lemma MaxIsPowerOfTwo()
    ensures PowerOfTwo(MAX_BUCKETS)
  {
    assert PowerOfTwo(8);
    hide PowerOfTwo;
    SixteenTimes(0x8);
    SixteenTimes(0x80);
    SixteenTimes(0x800);
    SixteenTimes(0x8000);
    SixteenTimes(0x8_0000);
    SixteenTimes(0x80_0000);
    SixteenTimes(0x800_0000);
  }

  /** The count `alignhash_set` grows to, in 32-bit arithmetic. */
  function Doubled(n: nat): (r: nat) {
    if n == 0 then 2 else n * 2 % 0x1_0000_0000
  }

  /** Doubling keeps a bucket count, except that the largest one wraps to none. */
  lemma DoubledBuckets(n: nat)
    requires Buckets(n)
    ensures Buckets(Doubled(n))
    ensures n == MAX_BUCKETS ==> Doubled(n) == 0
    ensures n < MAX_BUCKETS ==> Sup(n) < Sup(Doubled(n))
  {
    if n == 0 {
      assert PowerOfTwo(2);
    } else if n < MAX_BUCKETS {
      MaxIsPowerOfTwo();
      NextPowerOfTwo(n, MAX_BUCKETS);
      assert n * 2 / 2 == n && n * 2 % 2 == 0;
    }
  }

  /** There are at most as many entries as used buckets. */
  lemma EntriesUsed<K(!new), V>(f: seq<Flag>, ks: seq<K>, vs: seq<V>, m: map<K, V>, pos: map<K, nat>)
    requires Holds(f, ks, vs, m, pos)
    ensures |m| <= |Used(f)|
  {
    InjectionBound(pos, Used(f));
    assert |pos| == |m|;
  }

  lemma OkInsert<K(!new), V>(f: seq<Flag>, ks: seq<K>, vs: seq<V>, m: map<K, V>, pos: map<K, nat>, hash: K -> nat,
                             size: nat, nused: nat, sup: nat, x: nat, key: K, empty: bool)
    requires Ok(f, ks, vs, m, pos, hash, size, nused, sup) && nused < sup
    requires x < |f| && f[x] == (if empty then Empty else Deleted) && key !in m && OnPath(f, hash(key) % |f|, x)
    ensures Ok(f[x := Live], ks[x := key], vs, m[key := vs[x]], pos[key := x], hash,
               size + 1, if empty then nused + 1 else nused, sup)
  {
    Insert(f, ks, vs, m, pos, hash, x, key);
    UsedGrows(f, x, empty);
    hide Holds, Reachable, Used, PowerOfTwo;
  }

  lemma OkOverwrite<K(!new), V>(f: seq<Flag>, ks: seq<K>, vs: seq<V>, m: map<K, V>, pos: map<K, nat>, hash: K -> nat,
                                size: nat, nused: nat, sup: nat, x: nat, v: V)
    requires Ok(f, ks, vs, m, pos, hash, size, nused, sup) && x < |f| && f[x] == Live
    ensures Ok(f, ks, vs[x := v], m[ks[x] := v], pos, hash, size, nused, sup)
  {
    Overwrite(f, ks, vs, m, pos, x, v);
    hide Holds, Reachable, Used, PowerOfTwo;
  }

  lemma OkRemove<K(!new), V>(f: seq<Flag>, ks: seq<K>, vs: seq<V>, m: map<K, V>, pos: map<K, nat>, hash: K -> nat,
                             size: nat, nused: nat, sup: nat, x: nat)
    requires Ok(f, ks, vs, m, pos, hash, size, nused, sup) && x < |f| && f[x] == Live
    ensures size > 0 && Ok(f[x := Deleted], ks, vs, m - {ks[x]}, pos - {ks[x]}, hash, size - 1, nused, sup)
  {
    Remove(f, ks, vs, m, pos, hash, x);
    assert ks[x] in m;
    assert (m - {ks[x]}).Keys == m.Keys - {ks[x]};
    hide Holds, Reachable, Used, PowerOfTwo;
  }

  class Table<K(==, 0, !new), V(0)> {
    const hash: K -> nat
    var nbucket: nat
    var size: nat
    var nused: nat
    var sup: nat
    var flags: array<bv32>
    var keys: array<K>
    var vals: array<V>

    /** The finite map the table stands for, and where each key is. */
    ghost var contents: map<K, V>
    ghost var pos: map<K, nat>

    ghost function Repr(): (r: set<object>)
      reads this
    {
      {this, flags, keys, vals}
    }

    ghost function Flags(): (r: seq<Flag>)
      reads this, flags
      requires nbucket <= WORD * flags.Length
    {
      View(flags[..], nbucket)
    }

    ghost predicate Valid()
      reads this, flags, keys, vals
    {
      && flags as object != keys && flags as object != vals && keys as object != vals
      && nbucket <= WORD * flags.Length && keys.Length == nbucket == vals.Length
      && Ok(View(flags[..], nbucket), keys[..], vals[..], contents, pos, hash, size, nused, sup)
    }

    /** `alignhash_init` */
    constructor (hash: K -> nat)
      ensures Valid() && fresh(Repr()) && contents == map[] && this.hash == hash
    {
      this.hash := hash;
      nbucket, size, nused, sup := 0, 0, 0, 0;
      flags, keys, vals := new bv32[0], new K[0], new V[0];
      contents, pos := map[], map[];
      new;
      assert Used(Flags()) == {};
    }

    /** `alignhash_get`: the bucket of the key, or the end. */
    method Get(key: K) returns (x: nat)
      requires Valid()
      ensures if key in contents then key in pos && x == pos[key] && x < nbucket else x == nbucket
    {
      hide Ok, Passed, View;
      if nbucket == 0 {
        EmptyTable();
        return 0;
      }
      ghost var f, h, t := Flags(), hash(key) % nbucket, 0;
      var i := hash(key) % nbucket;
      var last := i;
      StartProbe(key);
      var del, empty := Tests(flags, i, nbucket);
      while !empty && (del || keys[i] != key)
        invariant 0 <= t < nbucket && i == At(h, t, nbucket) && f[i] != Both
        invariant del == (f[i] == Deleted) && empty == (f[i] == Empty)
        invariant Passed(f, keys[..], h, t, key)
        decreases nbucket - t
      {
        PassOne(f, keys[..], h, t, key);
        i := if i + 1 < nbucket then i + 1 else 0;
        t := t + 1;
        if i == last {
          Missed(key, t);
          return nbucket;
        }
        NoBoth(i);
        del, empty := Tests(flags, i, nbucket);
      }
      if empty {
        Missed(key, t);
        return nbucket;
      }
      BucketKey(i);
      return i;
    }

    lemma EmptyTable()
      requires Valid() && nbucket == 0
      ensures contents == map[]
    {
      assert forall k :: k in pos ==> pos[k] < 0;
    }

    lemma NoBoth(i: nat)
      requires Valid() && i < nbucket
      ensures Flags()[i] != Both
    {
    }

    lemma StartProbe(key: K)
      requires Valid() && nbucket > 0
      ensures Passed(Flags(), keys[..], hash(key) % nbucket, 0, key)
      ensures Flags()[hash(key) % nbucket] != Both
    {
    }

    /** A probe that got round or met an empty bucket. */
    lemma Missed(key: K, t: nat)
      requires Valid() && 0 < nbucket && t <= nbucket
      requires Passed(Flags(), keys[..], hash(key) % nbucket, t, key)
      ensures t == nbucket || Flags()[At(hash(key) % nbucket, t, nbucket)] == Empty ==> key !in contents
    {
      ProbeMisses(Flags(), keys[..], vals[..], contents, pos, hash, t, key);
    }

    lemma BucketKey(i: nat)
      requires Valid() && i < nbucket && Flags()[i] == Live
      ensures keys[i] in contents && keys[i] in pos && pos[keys[i]] == i
    {
      assert keys[..][i] in pos;
    }

    /** `alignhash_resize`: refused when the entries would not fit under the new load limit. */
    method Resize(n: nat) returns (ok: bool)
      requires Valid() && Buckets(n)
      modifies Repr()
      ensures Valid() && fresh(Repr() - old(Repr()))
      ensures contents == old(contents)
      ensures ok <==> |contents| < Sup(n)
      ensures ok ==> nbucket == n && nused == |contents|
      ensures !ok ==> nbucket == old(nbucket) && nused == old(nused)
    {
      hide Holds, Reachable, Used, View, PowerOfTwo, Buckets;
      if size >= Sup(n) { return false; }
      BucketWords(n);
      ghost var m, p := contents, pos;
      var f, k, v;
      f, k, v, p := RehashInto(hash, flags, nbucket, n, keys, vals, m, p);
      assert contents == m && size == |m| && Repr() == old(Repr());
      assert Ok(View(f[..], n), k[..], v[..], m, p, hash, size, size, Sup(n));
      Install(f, k, v, n, p);
      return true;
    }

    method Install(f: array<bv32>, k: array<K>, v: array<V>, n: nat, ghost p: map<K, nat>)
      requires f as object != k && f as object != v && k as object != v
      requires n <= WORD * f.Length && k.Length == n == v.Length
      requires Ok(View(f[..], n), k[..], v[..], contents, p, hash, size, size, Sup(n))
      modifies this
      ensures Valid() && contents == old(contents)
      ensures flags == f && keys == k && vals == v && nbucket == n && nused == size == old(size)
    {
      hide Ok, View;
      flags, keys, vals, pos := f, k, v, p;
      nbucket := n;
      nused := size;
      sup := Sup(nbucket);
    }
  
    /** The growth at the head of `alignhash_set`: only a table of the largest size is refused. */
    method Grow() returns (ok: bool)
      requires Valid()
      modifies Repr()
      ensures Valid() && fresh(Repr() - old(Repr())) && contents == old(contents)
      ensures ok <==> !(old(nused) >= old(sup) && old(nbucket) == MAX_BUCKETS)
      ensures ok ==> nused < sup && nused == if old(nused) < old(sup) then old(nused) else |contents|
      ensures !ok ==> nbucket == old(nbucket) && nused == old(nused)
      ensures old(nused) < old(sup) ==> nbucket == old(nbucket) && Flags() == old(Flags())
    {
      if nused < sup { return true; }
      DoubledBuckets(nbucket);
      EntriesUsed(View(flags[..], nbucket), keys[..], vals[..], contents, pos);
      hide Holds, Reachable, View, Used, Buckets;
      ok := Resize(Doubled(nbucket));
    }

    /** The probe of `alignhash_set`: the key's bucket, or the one to put it in. */
    method Probe(key: K) returns (x: nat)
      requires Valid() && nused < sup
      ensures x < nbucket && OnPath(Flags(), hash(key) % nbucket, x)
      ensures if key in contents then key in pos && x == pos[key] && Flags()[x] == Live
              else (Flags()[x] == Empty || Flags()[x] == Deleted) && LastFree(Flags(), hash(key) % nbucket, x)
    {
      hide LastDeleted, LastFree, Passed, OnPath, Holds, Reachable, View, Buckets;
      ghost var f, ks, h := Flags(), keys[..], hash(key) % nbucket;
      ghost var t;
      var i, site;
      x, i, site, t := Walk(key);
      var del, empty := Tests(flags, i, nbucket);
      ProbeMisses(f, ks, vals[..], contents, pos, hash, t, key);
      PassedOn(f, ks, h, t, key);
      if empty { LastDeletedIsFree(f, h, t, site); } else { LiveHolds(f, ks, vals[..], contents, pos); }
      if x == nbucket {
        x := if empty && site != nbucket then site else i;
      }
    }

    /** The loop of the probe: `i` is where it ends, `site` the last deleted bucket before, `x` is set only
        if it comes round, which it does not. */
    method Walk(key: K) returns (x: nat, i: nat, site: nat, ghost t: nat)
      requires Valid() && nused < sup
      ensures var f, h := Flags(), hash(key) % nbucket;
              && x == nbucket && t < nbucket && i == At(h, t, nbucket) && Passed(f, keys[..], h, t, key)
              && LastDeleted(f, h, t, site) && (site == nbucket || (site < nbucket && f[site] == Deleted && OnPath(f, h, site)))
              && (f[i] == Empty || (f[i] == Live && keys[i] == key))
    {
      hide LastDeleted, Passed, OnPath, Holds, Reachable, View, Buckets;
      ghost var f, ks, h := Flags(), keys[..], hash(key) % nbucket;
      t, site, x, i := 0, nbucket, nbucket, hash(key) % nbucket;
      PassNone(f, ks, h, key);
      LiveHolds(f, ks, vals[..], contents, pos);
      var last := i;
      var del, empty := Tests(flags, i, nbucket);
      while !empty && (del || keys[i] != key)
        invariant 0 <= t < nbucket && i == At(h, t, nbucket) && Passed(f, ks, h, t, key)
        invariant del == (f[i] == Deleted) && empty == (f[i] == Empty) && x == nbucket
        invariant site == nbucket || (site < nbucket && f[site] == Deleted && OnPath(f, h, site))
        invariant LastDeleted(f, h, t, site)
        decreases nbucket - t
      {
        LastDeletedNext(f, h, t, site);
        PassedOn(f, ks, h, t, key);
        if del { site := i; }
        PassOne(f, ks, h, t, key);
        ProbeEnds(f, ks, h, t + 1, key);
        DistAt(h, t, nbucket);
        i := if i + 1 < nbucket then i + 1 else 0;
        t := t + 1;
        if i == last {
          x := site;
          break;
        }
        del, empty := Tests(flags, i, nbucket);
      }
    }

    /** `alignhash_set`: finds the key or makes a place for it.  A new key's value is whatever its
        bucket holds until the caller writes it. */
    method Set(key: K) returns (x: nat, ret: Insertion)
      requires Valid()
      modifies Repr()
      ensures Valid() && fresh(Repr() - old(Repr()))
      ensures ret == Refused <==> old(nused) >= old(sup) && old(nbucket) == MAX_BUCKETS
      ensures ret == Refused ==> x == nbucket == old(nbucket) && contents == old(contents) && nused == old(nused)
      ensures ret != Refused ==> x < nbucket && key in contents && key in pos && x == pos[key]
      ensures ret == InsErr ==> key in old(contents) && contents == old(contents)
      ensures ret == InsNew || ret == InsDel ==> key !in old(contents) && contents == old(contents)[key := vals[x]]
      ensures var used := if old(nused) < old(sup) then old(nused) else |old(contents)|; // growth leaves the entries only
              (ret == InsNew ==> nused == used + 1) && (ret == InsDel || ret == InsErr ==> nused == used)
      ensures (ret == InsNew || ret == InsDel) && old(nused) < old(sup) ==>
                nbucket == old(nbucket) && LastFree(old(Flags()), hash(key) % nbucket, x)
    {
      hide Holds, Reachable, Used, View, Buckets, OnPath, Ok;
      var ok := Grow();
      if !ok { return nbucket, Refused; }
      x := Probe(key);
      var del, empty := Tests(flags, x, nbucket);
      if !del && !empty { return x, InsErr; }
      Take(x, key, empty);
      ret := if empty then InsNew else InsDel;
    }

    /** Writes the key into a bucket that is not live. */
    method Take(x: nat, key: K, empty: bool)
      requires Valid() && x < nbucket && key !in contents
      requires Flags()[x] == if empty then Empty else Deleted
      requires OnPath(Flags(), hash(key) % nbucket, x) && nused < sup
      modifies Repr()
      ensures Valid() && Repr() == old(Repr()) && nbucket == old(nbucket)
      ensures nused == old(nused) + if empty then 1 else 0
      ensures contents == old(contents)[key := old(vals[x])] && pos == old(pos)[key := x] && vals[x] == old(vals[x])
    {
      hide Ok, View, OnPath;
      ghost var f, ks, vs := Flags(), keys[..], vals[..];
      OkInsert(f, ks, vs, contents, pos, hash, size, nused, sup, x, key, empty);
      keys[x] := key;
      ClearBoth(flags, x, nbucket);
      assert keys[..] == ks[x := key] && vals[..] == vs;
      contents, pos := contents[key := vals[x]], pos[key := x];
      size := size + 1;
      if empty { nused := nused + 1; }
    }

    /** `alignhash_value(h, x) = v` */
    method PutValue(x: nat, v: V)
      requires Valid() && x < nbucket && Flags()[x] == Live
      modifies Repr()
      ensures Valid() && Repr() == old(Repr()) && nbucket == old(nbucket)
      ensures contents == old(contents)[keys[x] := v] && keys[x] == old(keys[x]) && pos == old(pos)
    {
      hide Ok, View;
      ghost var f, ks, vs := Flags(), keys[..], vals[..];
      OkOverwrite(f, ks, vs, contents, pos, hash, size, nused, sup, x, v);
      vals[x] := v;
      assert keys[..] == ks && vals[..] == vs[x := v] && flags[..] == old(flags[..]);
      contents := contents[keys[x] := v];
    }

    /** `alignhash_del` */
    method Delete(x: nat)
      requires Valid() && x <= nbucket
      modifies Repr()
      ensures Valid() && Repr() == old(Repr()) && nbucket == old(nbucket)
      ensures nused == old(nused) && sup == old(sup)
      ensures if x < nbucket && old(Flags())[x] == Live
              then contents == old(contents) - {old(keys[x])} && pos == old(pos) - {old(keys[x])}
              else contents == old(contents) && pos == old(pos)
    {
      hide Ok, View;
      if x == nbucket { return; }
      ghost var f, ks, vs := Flags(), keys[..], vals[..];
      var del, empty := Tests(flags, x, nbucket);
      if !del && !empty {
        OkRemove(f, ks, vs, contents, pos, hash, size, nused, sup, x);
        SetDel(flags, x, nbucket);
        assert keys[..] == ks && vals[..] == vs;
        contents, pos := contents - {keys[x]}, pos - {keys[x]};
        size := size - 1;
      }
    }
  
    /** Deleting, or giving a value to, the bucket of a known key. */
    method DeleteKey(x: nat, ghost key: K)
      requires Valid() && key in contents && key in pos && x == pos[key]
      modifies Repr()
      ensures Valid() && Repr() == old(Repr())
      ensures nbucket == old(nbucket) && nused == old(nused) && sup == old(sup)
      ensures contents == old(contents) - {key}
    {
      hide Ok;
      KeyBucket(key);
      Delete(x);
    }

    method PutValueOf(x: nat, v: V, ghost key: K)
      requires Valid() && key in contents && key in pos && x == pos[key]
      modifies Repr()
      ensures Valid() && Repr() == old(Repr())
      ensures contents == old(contents)[key := v] && pos == old(pos)
    {
      hide Ok;
      KeyBucket(key);
      PutValue(x, v);
    }

    method ValueOf(x: nat, ghost key: K) returns (v: V)
      requires Valid() && key in contents && key in pos && x == pos[key]
      ensures v == contents[key]
    {
      KeyBucket(key);
      v := vals[x];
    }

    /** `alignhash_size` */
    method Size() returns (n: nat)
      requires Valid()
      ensures n == |contents|
    {
      n := size;
    }

    lemma KeyBucket(key: K)
      requires Valid() && key in contents
      ensures key in pos && pos[key] < nbucket && Flags()[pos[key]] == Live
      ensures keys[pos[key]] == key && vals[pos[key]] == contents[key]
    {
      assert keys[..][pos[key]] == key && vals[..][pos[key]] == contents[key];
    }

    lemma Bounds()
      requires Valid()
      ensures |contents| <= nused <= sup == Sup(nbucket) <= Sup(MAX_BUCKETS)
    {
      EntriesUsed(Flags(), keys[..], vals[..], contents, pos);
    }
  }

  lemma KeysBelow<V>(m: map<nat, V>, n: nat)
    requires forall k: nat :: k in m <==> k < n
    ensures |m| == n
  {
    assert m.Keys == Below(n);
  }

  /** Sets the first key that is missing. */
  method SetNext(t: Table<nat, nat>, n: nat) returns (refused: bool)
    requires t.Valid() && forall k: nat :: k in t.contents <==> k < n
    modifies t.Repr()
    ensures t.Valid() && fresh(t.Repr() - old(t.Repr()))
    ensures refused ==> t.nused >= t.sup && t.nbucket == MAX_BUCKETS && n <= Sup(MAX_BUCKETS)
    ensures refused ==> forall k: nat :: k in t.contents <==> k < n
    ensures !refused ==> n < Sup(MAX_BUCKETS) && forall k: nat :: k in t.contents <==> k < n + 1
  {
    hide Ok, Table.Valid;
    t.Bounds();
    KeysBelow(t.contents, n);
    var x, ret := t.Set(n);
    refused := ret == Refused;
    t.Bounds();
    if !refused { KeysBelow(t.contents, n + 1); }
  }

  /** Setting one key after the other in a new table comes to the refusal, whatever the hash. */
  method FillUp(hash: nat -> nat) returns (t: Table<nat, nat>, n: nat)
    ensures fresh(t) && fresh(t.Repr()) && t.Valid()
    ensures forall k: nat :: k in t.contents <==> k < n
    ensures t.nused >= t.sup && t.nbucket == MAX_BUCKETS
  {
    hide Ok, Table.Valid;
    t := new Table(hash);
    n := 0;
    var refused := SetNext(t, n);
    while !refused
      invariant fresh(t) && fresh(t.Repr()) && t.Valid() && n <= Sup(MAX_BUCKETS)
      invariant forall k: nat :: k in t.contents <==> k < if refused then n else n + 1
      invariant if refused then t.nused >= t.sup && t.nbucket == MAX_BUCKETS else n < Sup(MAX_BUCKETS)
      decreases !refused, Sup(MAX_BUCKETS) - n
    {
      n := n + 1;
      refused := SetNext(t, n);
    }
  }

  /** Deletes the first key that is left. */
  method DeleteNext(t: Table<nat, nat>, k: nat, n: nat)
    requires t.Valid() && k < n && forall i: nat :: i in t.contents <==> k <= i < n
    modifies t.Repr()
    ensures t.Valid() && t.Repr() == old(t.Repr())
    ensures forall i: nat :: i in t.contents <==> k + 1 <= i < n
    ensures t.nused == old(t.nused) && t.sup == old(t.sup) && t.nbucket == old(t.nbucket)
  {
    hide Ok, Table.Valid;
    var x := t.Get(k);
    t.DeleteKey(x, k);
  }

  /** The refusal is met by a table that holds nothing: all keys set until then are deleted again. */
  method RefusedThoughEmpty(hash: nat -> nat) returns (t: Table<nat, nat>, ret: Insertion)
    ensures t.Valid() && t.contents == map[] && ret == Refused
  {
    hide Ok, Table.Valid;
    var n;
    t, n := FillUp(hash);
    for k := 0 to n
      invariant fresh(t) && fresh(t.Repr()) && t.Valid()
      invariant forall i: nat :: i in t.contents <==> k <= i < n
      invariant t.nused >= t.sup && t.nbucket == MAX_BUCKETS
    {
      DeleteNext(t, k, n);
    }
    var x;
    x, ret := t.Set(0);
    assert t.contents == map[];
  }
}
