/** An open-addressing table with linear probing as sequences: flags, keys, values, and the finite
    map they stand for.  This is the meaning against which `AlignHash` is proved. */
module ProbeTable {
  import opened PackedFlags

  /** The `t`-th bucket of the probe path that starts at `h`. */
  function At(h: nat, t: nat, n: nat): (i: nat)
    requires h < n && t < n
    ensures i < n
  {
    if h + t < n then h + t else h + t - n
  }

  /** Where on the probe path from `h` bucket `i` is. */
  function Dist(h: nat, i: nat, n: nat): (t: nat)
    requires h < n && i < n
    ensures t < n && At(h, t, n) == i
  {
    if i >= h then i - h else i + n - h
  }

  lemma DistAt(h: nat, t: nat, n: nat)
    requires h < n && t < n
    ensures Dist(h, At(h, t, n), n) == t
  {
  }

  /** No bucket in front of the `t`-th one on the path from `h` is empty. */
  ghost predicate Filled(f: seq<Flag>, h: nat, t: nat)
    requires h < |f| && t <= |f|
  {
    forall u :: 0 <= u < t ==> f[At(h, u, |f|)] != Empty
  }

  ghost predicate OnPath(f: seq<Flag>, h: nat, i: nat)
    requires h < |f| && i < |f|
  {
    Filled(f, h, Dist(h, i, |f|))
  }

  /** Every live bucket is found by probing from its key's home. */
  ghost predicate Reachable<K(!new)>(f: seq<Flag>, ks: seq<K>, hash: K -> nat)
    requires |f| <= |ks|
  {
    forall i :: 0 <= i < |f| && f[i] == Live ==> OnPath(f, hash(ks[i]) % |f|, i)
  }

  /** The live buckets hold exactly the map `m`; `pos` says where. */
  ghost predicate Holds<K(!new), V>(f: seq<Flag>, ks: seq<K>, vs: seq<V>, m: map<K, V>, pos: map<K, nat>) {
    && |f| <= |ks| && |f| <= |vs| && m.Keys == pos.Keys
    && (forall k :: k in pos ==> pos[k] < |f| && f[pos[k]] == Live && ks[pos[k]] == k && vs[pos[k]] == m[k])
    && (forall i :: 0 <= i < |f| && f[i] == Live ==> ks[i] in pos && pos[ks[i]] == i)
    && (forall i :: 0 <= i < |f| ==> f[i] != Both)
  }

  /** The probe has passed `t` buckets, none of them empty and none of them the key's. */
  ghost predicate Passed<K>(f: seq<Flag>, ks: seq<K>, h: nat, t: nat, key: K)
    requires h < |f| <= |ks| && t <= |f|
  {
    forall u :: 0 <= u < t ==>
      var i := At(h, u, |f|);
      f[i] != Empty && (f[i] == Live ==> ks[i] != key)
  }

  /** One step of a probe: past a bucket that is neither empty nor the key's. */
  lemma PassOne<K>(f: seq<Flag>, ks: seq<K>, h: nat, t: nat, key: K)
    requires h < |f| <= |ks| && t < |f| && Passed(f, ks, h, t, key)
    requires var i := At(h, t, |f|); f[i] != Empty && (f[i] == Live ==> ks[i] != key)
    ensures Passed(f, ks, h, t + 1, key)
    ensures var i := At(h, t, |f|);
            var j := if i + 1 < |f| then i + 1 else 0;
            if t + 1 < |f| then j == At(h, t + 1, |f|) && j != h else j == h
  {
  }

  /** A probe for a present key neither gets round nor meets an empty bucket first. */
  lemma ProbeMeets<K(!new), V>(f: seq<Flag>, ks: seq<K>, vs: seq<V>, m: map<K, V>, pos: map<K, nat>,
                               hash: K -> nat, t: nat, key: K)
    requires |f| > 0 && Holds(f, ks, vs, m, pos) && Reachable(f, ks, hash) && key in m
    requires t <= |f| && Passed(f, ks, hash(key) % |f|, t, key)
    ensures t < |f| && f[At(hash(key) % |f|, t, |f|)] != Empty
  {
    var h, i := hash(key) % |f|, pos[key];
    var d := Dist(h, i, |f|);
    assert OnPath(f, h, i);
    assert At(h, d, |f|) == i;
    assert d >= t;
  }

  /** A probe that gets to an empty bucket, or all the way round, has proved the key absent. */
  lemma ProbeMisses<K(!new), V>(f: seq<Flag>, ks: seq<K>, vs: seq<V>, m: map<K, V>, pos: map<K, nat>,
                                hash: K -> nat, t: nat, key: K)
    requires |f| > 0 && Holds(f, ks, vs, m, pos) && Reachable(f, ks, hash)
    requires t <= |f| && Passed(f, ks, hash(key) % |f|, t, key)
    ensures t == |f| || f[At(hash(key) % |f|, t, |f|)] == Empty ==> key !in m
  {
    if key in m {
      ProbeMeets(f, ks, vs, m, pos, hash, t, key);
    }
  }

  /** Where a missing key goes: the last deleted bucket in front of the first empty one on the path, which is
      taken only if there is none. */
  ghost predicate LastFree(f: seq<Flag>, h: nat, x: nat)
    requires h < |f| && x < |f|
  {
    forall t :: 0 <= t < |f| && Filled(f, h, t) && f[At(h, t, |f|)] == Deleted ==> f[x] == Deleted && t <= Dist(h, x, |f|)
  }

  /** The last deleted one of the first `t` buckets of a path is `site`, or there is none. */
  ghost predicate LastDeleted(f: seq<Flag>, h: nat, t: nat, site: nat)
    requires h < |f| && t <= |f|
  {
    && (site < |f| ==> f[site] == Deleted && Dist(h, site, |f|) < t)
    && forall u :: 0 <= u < t && f[At(h, u, |f|)] == Deleted ==> site < |f| && u <= Dist(h, site, |f|)
  }

  /** The start of a probe. */
  lemma PassNone<K>(f: seq<Flag>, ks: seq<K>, h: nat, key: K)
    requires h < |f| <= |ks|
    ensures Passed(f, ks, h, 0, key) && LastDeleted(f, h, 0, |f|)
  {
  }

  lemma LiveHolds<K(!new), V>(f: seq<Flag>, ks: seq<K>, vs: seq<V>, m: map<K, V>, pos: map<K, nat>)
    requires Holds(f, ks, vs, m, pos)
    ensures forall i :: 0 <= i < |f| ==> f[i] != Both && (f[i] == Live ==> ks[i] in m && ks[i] in pos && pos[ks[i]] == i)
  {
  }

  lemma PassedOn<K>(f: seq<Flag>, ks: seq<K>, h: nat, t: nat, key: K)
    requires h < |f| <= |ks| && t < |f| && Passed(f, ks, h, t, key)
    ensures OnPath(f, h, At(h, t, |f|))
  {
    DistAt(h, t, |f|);
  }

  lemma LastDeletedNext(f: seq<Flag>, h: nat, t: nat, site: nat)
    requires h < |f| && t < |f| && LastDeleted(f, h, t, site)
    ensures var i := At(h, t, |f|); LastDeleted(f, h, t + 1, if f[i] == Deleted then i else site)
  {
    DistAt(h, t, |f|);
  }

  /** At an empty bucket the search is over. */
  lemma LastDeletedIsFree(f: seq<Flag>, h: nat, t: nat, site: nat)
    requires h < |f| && t < |f| && LastDeleted(f, h, t, site) && f[At(h, t, |f|)] == Empty
    ensures LastFree(f, h, if site < |f| then site else At(h, t, |f|))
  {
  }

  // ---------------------------------------------------------------- counting buckets

  ghost function Used(f: seq<Flag>): (s: set<nat>) {
    set i: nat | i < |f| && f[i] != Empty
  }

  ghost function LiveSet(f: seq<Flag>): (s: set<nat>) {
    set i: nat | i < |f| && f[i] == Live
  }

  ghost function Below(n: nat): (s: set<nat>)
    ensures |s| == n && forall i: nat :: i in s <==> i < n
  {
    if n == 0 then {} else Below(n - 1) + {n - 1}
  }

  /** A table with an unused bucket left has an empty one. */
  lemma EmptyExists(f: seq<Flag>)
    ensures |Used(f)| < |f| ==> exists e: nat :: e < |f| && f[e] == Empty
  {
    if forall i: nat :: i < |f| ==> f[i] != Empty {
      assert Used(f) == Below(|f|);
    }
  }

  /** With an empty bucket in the table a probe cannot get all the way round. */
  lemma ProbeEnds<K>(f: seq<Flag>, ks: seq<K>, h: nat, t: nat, key: K)
    requires h < |f| <= |ks| && t <= |f| && |Used(f)| < |f| && Passed(f, ks, h, t, key)
    ensures t < |f|
  {
    EmptyExists(f);
    var e: nat :| e < |f| && f[e] == Empty;
    assert At(h, Dist(h, e, |f|), |f|) == e;
  }

  lemma FilledEnds(f: seq<Flag>, h: nat, t: nat)
    requires h < |f| && t <= |f| && |Used(f)| < |f| && Filled(f, h, t)
    ensures t < |f|
  {
    EmptyExists(f);
    var e: nat :| e < |f| && f[e] == Empty;
    assert At(h, Dist(h, e, |f|), |f|) == e;
  }

  lemma FillOne(f: seq<Flag>, h: nat, t: nat)
    requires h < |f| && t < |f| && Filled(f, h, t) && f[At(h, t, |f|)] != Empty
    ensures Filled(f, h, t + 1)
    ensures var i := At(h, t, |f|);
            t + 1 < |f| ==> At(h, t + 1, |f|) == if i + 1 < |f| then i + 1 else 0
  {
  }

  lemma {:induction false} InjectionBound<A, B>(g: map<A, B>, s: set<B>)
    requires forall a :: a in g ==> g[a] in s
    requires forall a, b :: a in g && b in g && g[a] == g[b] ==> a == b
    ensures |g| <= |s|
    decreases |g|
  {
    if g.Keys != {} {
      var a :| a in g;
      var g' := g - {a};
      assert |g'| == |g| - 1 by { assert g'.Keys == g.Keys - {a}; }
      InjectionBound(g', s - {g[a]});
    }
  }

  lemma LiveDrops(f: seq<Flag>, i: nat)
    requires i < |f| && f[i] == Live
    ensures LiveSet(f[i := Deleted]) == LiveSet(f) - {i} < LiveSet(f)
  {
    assert i in LiveSet(f);
  }

  /** The buckets below `j` have been dealt with. */
  ghost predicate NoneLiveBelow(f: seq<Flag>, j: nat) {
    forall i: nat :: i in LiveSet(f) ==> j <= i
  }

  lemma NextBelow(f: seq<Flag>, f': seq<Flag>, j: nat)
    requires NoneLiveBelow(f, j) && LiveSet(f') <= LiveSet(f) - {j}
    ensures NoneLiveBelow(f', j + 1)
  {
  }

  /** As many live buckets as keys. */
  lemma LiveCount<K(!new), V>(f: seq<Flag>, ks: seq<K>, vs: seq<V>, m: map<K, V>, pos: map<K, nat>)
    requires Holds(f, ks, vs, m, pos)
    ensures |LiveSet(f)| == |m|
  {
    InjectionBound(pos, LiveSet(f));
    assert |pos| == |m|;
    var g := map i | i in LiveSet(f) :: ks[i];
    assert g.Keys == LiveSet(f) && |g| == |LiveSet(f)|;
    InjectionBound(g, m.Keys);
  }

  // ---------------------------------------------------------------- single updates

  /** A flag that stops being empty spoils no path. */
  lemma FilledGrows(f: seq<Flag>, x: nat, g: Flag, h: nat, t: nat)
    requires h < |f| && t <= |f| && x < |f| && g != Empty
    requires Filled(f, h, t)
    ensures Filled(f[x := g], h, t)
  {
  }

  /** Putting a new key into a bucket that is not live and lies on the key's path. */
  lemma Insert<K(!new), V>(f: seq<Flag>, ks: seq<K>, vs: seq<V>, m: map<K, V>, pos: map<K, nat>,
                           hash: K -> nat, x: nat, key: K)
    requires Holds(f, ks, vs, m, pos) && Reachable(f, ks, hash)
    requires x < |f| && f[x] != Live && key !in m && OnPath(f, hash(key) % |f|, x)
    ensures Holds(f[x := Live], ks[x := key], vs, m[key := vs[x]], pos[key := x])
    ensures Reachable(f[x := Live], ks[x := key], hash)
    ensures Used(f[x := Live]) == Used(f) + {x}
  {
    var f', ks' := f[x := Live], ks[x := key];
    forall i | 0 <= i < |f'| && f'[i] == Live
      ensures OnPath(f', hash(ks'[i]) % |f'|, i)
    {
      var h := hash(ks'[i]) % |f|;
      assert OnPath(f, h, i);
      FilledGrows(f, x, Live, h, Dist(h, i, |f|));
    }
  }

  lemma UsedGrows(f: seq<Flag>, x: nat, empty: bool)
    requires x < |f| && f[x] == if empty then Empty else Deleted
    ensures |Used(f[x := Live])| == |Used(f)| + if empty then 1 else 0
  {
    assert Used(f[x := Live]) == Used(f) + {x};
    assert x in Used(f) <==> !empty;
    assert !empty ==> Used(f) + {x} == Used(f);
  }

  /** Changing the value of a present key. */
  lemma Overwrite<K(!new), V>(f: seq<Flag>, ks: seq<K>, vs: seq<V>, m: map<K, V>, pos: map<K, nat>, x: nat, v: V)
    requires Holds(f, ks, vs, m, pos) && x < |f| && f[x] == Live
    ensures ks[x] in m && Holds(f, ks, vs[x := v], m[ks[x] := v], pos) && |m[ks[x] := v]| == |m|
  {
    assert m[ks[x] := v].Keys == m.Keys;
  }

  /** Leaving a tombstone. */
  lemma Remove<K(!new), V>(f: seq<Flag>, ks: seq<K>, vs: seq<V>, m: map<K, V>, pos: map<K, nat>,
                           hash: K -> nat, x: nat)
    requires Holds(f, ks, vs, m, pos) && Reachable(f, ks, hash)
    requires x < |f| && f[x] == Live
    ensures Holds(f[x := Deleted], ks, vs, m - {ks[x]}, pos - {ks[x]})
    ensures Reachable(f[x := Deleted], ks, hash)
    ensures Used(f[x := Deleted]) == Used(f)
  {
    var f' := f[x := Deleted];
    forall i | 0 <= i < |f'| && f'[i] == Live
      ensures OnPath(f', hash(ks[i]) % |f'|, i)
    {
      var h := hash(ks[i]) % |f|;
      assert OnPath(f, h, i);
      FilledGrows(f, x, Deleted, h, Dist(h, i, |f|));
    }
  }

  // ---------------------------------------------------------------- the rehash

  predicate IsLive(f: seq<Flag>, i: nat) {
    i < |f| && f[i] == Live
  }

  /** In the middle of the in-place rehash: each bucket's key and value belong to the old table
      (`old`, not moved yet) or to the new one (`new`), never to both; together with the entry
      under way, if any, they are the map `m`. */
  ghost predicate Moving<K(!new), V>(old_: seq<Flag>, new_: seq<Flag>, ks: seq<K>, vs: seq<V>,
                                     m: map<K, V>, pos: map<K, nat>, carried: set<K>, hash: K -> nat)
  {
    && |old_| <= |ks| == |vs| && |new_| <= |ks|
    && carried <= m.Keys && pos.Keys == m.Keys - carried
    && (forall k :: k in pos ==>
          && pos[k] < |ks| && ks[pos[k]] == k && vs[pos[k]] == m[k]
          && (IsLive(old_, pos[k]) || IsLive(new_, pos[k])))
    && (forall i: nat :: IsLive(old_, i) ==> ks[i] in pos && pos[ks[i]] == i && !IsLive(new_, i))
    && (forall i: nat :: IsLive(new_, i) ==> ks[i] in pos && pos[ks[i]] == i)
    && (forall i :: 0 <= i < |new_| ==> new_[i] == Live || new_[i] == Empty)
    && Reachable(new_, ks, hash)
  }

  /** The rehash starts with an empty new table; the arrays may have grown. */
  lemma StartMoving<K(!new), V>(f: seq<Flag>, ks: seq<K>, vs: seq<V>, m: map<K, V>, pos: map<K, nat>,
                                new_: seq<Flag>, ks': seq<K>, vs': seq<V>, hash: K -> nat)
    requires Holds(f, ks, vs, m, pos)
    requires ks <= ks' && vs <= vs' && |new_| <= |ks'| == |vs'|
    requires forall i :: 0 <= i < |new_| ==> new_[i] == Empty
    ensures Moving(f, new_, ks', vs', m, pos, {}, hash)
  {
  }

  /** The new table has room for the entry under way. */
  lemma RoomToMove<K(!new), V>(old_: seq<Flag>, new_: seq<Flag>, ks: seq<K>, vs: seq<V>,
                               m: map<K, V>, pos: map<K, nat>, carried: set<K>, hash: K -> nat)
    requires Moving(old_, new_, ks, vs, m, pos, carried, hash) && |m| < |new_|
    ensures |Used(new_)| < |new_|
  {
    var g := map i | i in Used(new_) :: ks[i];
    assert g.Keys == Used(new_) && |g| == |Used(new_)|;
    forall i | i in g ensures g[i] in m.Keys && pos[g[i]] == i {
      assert IsLive(new_, i);
    }
    InjectionBound(g, m.Keys);
  }

  /** Picking up the next entry of the old table. */
  lemma PickUp<K(!new), V>(old_: seq<Flag>, new_: seq<Flag>, ks: seq<K>, vs: seq<V>,
                           m: map<K, V>, pos: map<K, nat>, hash: K -> nat, j: nat)
    requires Moving(old_, new_, ks, vs, m, pos, {}, hash) && IsLive(old_, j)
    ensures ks[j] in m && m[ks[j]] == vs[j]
    ensures Moving(old_[j := Deleted], new_, ks, vs, m, pos - {ks[j]}, {ks[j]}, hash)
  {
    var old', pos' := old_[j := Deleted], pos - {ks[j]};
    forall k | k in pos' ensures IsLive(old', pos'[k]) || IsLive(new_, pos'[k]) {
      assert pos'[k] == pos[k] && ks[pos[k]] == k;
    }
  }

  /** Putting an entry under way into an empty bucket of the new table that holds nothing. */
  lemma PutDown<K(!new), V>(old_: seq<Flag>, new_: seq<Flag>, ks: seq<K>, vs: seq<V>,
                            m: map<K, V>, pos: map<K, nat>, carried: set<K>, hash: K -> nat, key: K, i: nat)
    requires Moving(old_, new_, ks, vs, m, pos, carried, hash) && key in carried
    requires i < |new_| && new_[i] == Empty && OnPath(new_, hash(key) % |new_|, i) && !IsLive(old_, i)
    ensures Moving(old_, new_[i := Live], ks[i := key], vs[i := m[key]], m, pos[key := i], carried - {key}, hash)
  {
    var new', ks' := new_[i := Live], ks[i := key];
    forall j | 0 <= j < |new'| && new'[j] == Live ensures OnPath(new', hash(ks'[j]) % |new'|, j) {
      var h := hash(ks'[j]) % |new_|;
      assert OnPath(new_, h, j);
      FilledGrows(new_, i, Live, h, Dist(h, j, |new_|));
    }
    forall k | k in pos ensures pos[k] != i {
      assert IsLive(old_, pos[k]) || IsLive(new_, pos[k]);
    }
  }

  /** Exchanging the entry under way for the one that sits in its new bucket. */
  lemma Exchange<K(!new), V>(old_: seq<Flag>, new_: seq<Flag>, ks: seq<K>, vs: seq<V>,
                             m: map<K, V>, pos: map<K, nat>, hash: K -> nat, key: K, i: nat)
    requires Moving(old_, new_, ks, vs, m, pos, {key}, hash)
    requires i < |new_| && new_[i] == Empty && OnPath(new_, hash(key) % |new_|, i) && IsLive(old_, i)
    ensures ks[i] in m && m[ks[i]] == vs[i]
    ensures Moving(old_[i := Deleted], new_[i := Live], ks[i := key], vs[i := m[key]], m,
                   (pos - {ks[i]})[key := i], {ks[i]}, hash)
  {
    var old', pos', both := old_[i := Deleted], pos - {ks[i]}, {key, ks[i]};
    assert Moving(old', new_, ks, vs, m, pos', both, hash) by {
      forall k | k in pos' ensures IsLive(old', pos'[k]) || IsLive(new_, pos'[k]) {
        assert pos'[k] == pos[k] && ks[pos[k]] == k;
      }
    }
    PutDown(old', new_, ks, vs, m, pos', both, hash, key, i);
    assert both - {key} == {ks[i]};
  }

  /** When the old table is exhausted the new one holds the map. */
  lemma Moved<K(!new), V>(old_: seq<Flag>, new_: seq<Flag>, ks: seq<K>, vs: seq<V>,
                          m: map<K, V>, pos: map<K, nat>, hash: K -> nat)
    requires Moving(old_, new_, ks, vs, m, pos, {}, hash) && NoneLiveBelow(old_, |old_|)
    ensures Holds(new_, ks, vs, m, pos) && |Used(new_)| == |m|
  {
    forall i: nat ensures !IsLive(old_, i) {
      assert IsLive(old_, i) ==> i in LiveSet(old_);
    }
    assert Used(new_) == LiveSet(new_);
    LiveCount(new_, ks, vs, m, pos);
  }

  /** Cutting off what lies behind the table. */
  lemma Truncate<K(!new), V>(f: seq<Flag>, ks: seq<K>, vs: seq<V>, m: map<K, V>, pos: map<K, nat>,
                             hash: K -> nat, ks': seq<K>, vs': seq<V>)
    requires Holds(f, ks, vs, m, pos) && Reachable(f, ks, hash)
    requires |f| == |ks'| == |vs'| && ks' == ks[..|f|] && vs' == vs[..|f|]
    ensures Holds(f, ks', vs', m, pos) && Reachable(f, ks', hash)
  {
  }
}
