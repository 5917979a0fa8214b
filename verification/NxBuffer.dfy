/** The chunked allocator `nxb_buffer`: in the same chunk a stream grows up and objects are
    allocated down.  Positions are offsets from the start of a chunk, which is aligned. */
module NxBuffer {
  import opened Octets

  /** Size of the chunk header, and where the usable octets start in it. */
  const CHUNK := 24
  const BUF := 17

  /** Capacity from which on a chunk has room for any object after growth. */
  const ENOUGH := 33

  function AlignDown(n: int): (r: int) {
    n / 16 * 16
  }

  function AlignUp(n: nat): (r: nat) {
    (n + 15) / 16 * 16
  }

  /** The size `nxb_realloc_chunk` decides on: twice the old capacity, or room for the unfinished
      stream and the request and an eighth more. */
  function NewSize(capacity: nat, unfinished: nat, room: nat): (r: nat) {
    var m := room + unfinished;
    var n := m + m / 8;
    AlignUp(if 2 * capacity < n then n else 2 * capacity)
  }

  lemma Aligned(n: int)
    ensures AlignDown(n) <= n < AlignDown(n) + 16 && AlignDown(n) % 16 == 0
  {
    var q := n / 16;
    assert AlignDown(n) == 16 * q;
    assert (16 * q) % 16 == 0;
  }

  /** The new size is the least multiple of 16 that is twice the old capacity and has room for stream and
      request and an eighth more. */
  lemma GrowthSuffices(capacity: nat, unfinished: nat, room: nat)
    ensures var n, m := NewSize(capacity, unfinished, room), room + unfinished;
            && n % 16 == 0 && n >= 2 * capacity && n >= m + m / 8
            && (n < 2 * capacity + 16 || n < m + m / 8 + 16)
  {
    var m := room + unfinished;
    var k := if 2 * capacity < m + m / 8 then m + m / 8 else 2 * capacity;
    Aligned(k + 15);
    assert AlignUp(k) == AlignDown(k + 15);
  }

  /** Whether an object lands above the stream in the chunk grown for it. */
  predicate FitsAfterGrowth(capacity: nat, unfinished: nat, size: nat) {
    AlignDown(CHUNK + NewSize(capacity, unfinished, size) - size) >= BUF + unfinished
  }

  /** An object that does not land above an empty stream: alignment costs more than was added. */
  function Misfit(capacity: nat): (r: nat) {
    if capacity <= 8 then 9 else if capacity <= 16 then 25 else if capacity <= 24 then 41 else 57
  }

  /** Growth always makes room for the object exactly if the chunk had the capacity `ENOUGH`. */
  lemma AlignmentSlack(capacity: nat)
    ensures capacity >= ENOUGH ==> forall unfinished: nat, size: nat :: FitsAfterGrowth(capacity, unfinished, size)
    ensures capacity < ENOUGH ==>
              && AlignDown(BUF + capacity - Misfit(capacity)) < BUF
              && !FitsAfterGrowth(capacity, 0, Misfit(capacity))
  {
    if capacity >= ENOUGH {
      forall unfinished: nat, size: nat
        ensures FitsAfterGrowth(capacity, unfinished, size)
      {
        var m := size + unfinished;
        var n := NewSize(capacity, unfinished, size);
        assert m >= 64 ==> n >= m + 8;
        assert m < 64 ==> n >= 80 || m <= 56;
      }
    }
  }

  lemma Fits(capacity: nat, unfinished: nat, size: nat)
    requires capacity >= ENOUGH
    ensures AlignDown(CHUNK + NewSize(capacity, unfinished, size) - size) >= BUF + unfinished
  {
    AlignmentSlack(capacity);
    assert FitsAfterGrowth(capacity, unfinished, size);
  }

  class Chunk {
    const bytes: array<Byte>
    const shouldFree: bool
    var prev: Chunk?
    var dirty: bool

    constructor (size: nat, prev: Chunk?, shouldFree: bool)
      ensures fresh(bytes) && bytes.Length == size
      ensures this.prev == prev && this.shouldFree == shouldFree && !dirty
    {
      bytes := new Byte[size];
      this.prev, this.shouldFree, dirty := prev, shouldFree, false;
    }
  }

  method CopyOctets(to: array<Byte>, at: nat, data: seq<Byte>)
    requires at + |data| <= to.Length
    modifies to
    ensures to[at..at + |data|] == data && to[..at] == old(to[..at]) && to[at + |data|..] == old(to[at + |data|..])
  {
    forall i | 0 <= i < |data| { to[at + i] := data[i]; }
  }

  /** Octets handed out: a finished stream or an object. */
  datatype Region = Region(chunk: Chunk, lo: nat, hi: nat)

  ghost predicate Apart(r: Region, s: Region) {
    r.chunk != s.chunk || r.hi <= s.lo || s.hi <= r.lo
  }

  /** The chain of chunks, oldest first: only the first one is not to be freed. */
  ghost predicate Chained(chain: seq<Chunk>)
    reads (set c <- chain)`prev
  {
    && chain != []
    && (forall i, j :: 0 <= i < j < |chain| ==> chain[i] != chain[j] && chain[i].bytes != chain[j].bytes)
    && (forall i :: 0 <= i < |chain| ==> ChainedAt(chain, i))
  }

  ghost predicate ChainedAt(chain: seq<Chunk>, i: nat)
    requires i < |chain|
    reads {chain[i]}`prev
  {
    && chain[i].prev == (if i == 0 then null else chain[i - 1]) && chain[i].shouldFree == (i > 0)
    && chain[i].bytes.Length >= BUF + ENOUGH
  }

  /** A region lies in a live chunk, which is marked, and in the current chunk it lies below the
      stream or above the free space. */
  ghost predicate Placed(r: Region, chain: seq<Chunk>, chunk: Chunk, base: nat, end: nat)
    reads (set c <- chain)`dirty
  {
    && r.chunk in chain && r.chunk.dirty && BUF <= r.lo <= r.hi <= r.chunk.bytes.Length
    && (r.chunk == chunk ==> r.hi <= base || end <= r.lo)
  }

  ghost predicate AllPlaced(regions: seq<Region>, chain: seq<Chunk>, chunk: Chunk, base: nat, end: nat)
    reads (set c <- chain)`dirty
  {
    forall r :: r in regions ==> Placed(r, chain, chunk, base, end)
  }

  ghost predicate AllApart(regions: seq<Region>) {
    forall i, j :: 0 <= i < j < |regions| ==> Apart(regions[i], regions[j])
  }

  lemma ChainPush(chain: seq<Chunk>, c: Chunk)
    requires Chained(chain) && c !in chain && c.bytes.Length >= BUF + ENOUGH
    requires forall d :: d in chain ==> d.bytes != c.bytes
    requires c.prev == chain[|chain| - 1] && c.shouldFree
    ensures Chained(chain + [c])
  {
    var more := chain + [c];
    forall i | 0 <= i < |more|
      ensures ChainedAt(more, i)
    {
      if i < |chain| { assert ChainedAt(chain, i); }
    }
  }

  lemma ChainSwap(chain: seq<Chunk>, c: Chunk)
    requires Chained(chain) && c !in chain && c.bytes.Length >= BUF + ENOUGH
    requires forall d :: d in chain ==> d.bytes != c.bytes
    requires chain[|chain| - 1].shouldFree && c.prev == chain[|chain| - 1].prev && c.shouldFree
    ensures Chained(chain[..|chain| - 1] + [c])
  {
    var n := |chain| - 1;
    assert ChainedAt(chain, n);
    var more := chain[..n] + [c];
    forall i | 0 <= i < |more|
      ensures ChainedAt(more, i)
    {
      if i < n { assert ChainedAt(chain, i); }
    }
  }

  lemma PlacedPush(regions: seq<Region>, chain: seq<Chunk>, chunk: Chunk, base: nat, end: nat, c: Chunk, base': nat, end': nat)
    requires AllPlaced(regions, chain, chunk, base, end) && c !in chain
    ensures AllPlaced(regions, chain + [c], c, base', end')
  {
    forall r | r in regions
      ensures Placed(r, chain + [c], c, base', end')
    {
      assert Placed(r, chain, chunk, base, end);
    }
  }

  /** Nothing has been handed out of a chunk that is not marked. */
  lemma PlacedSwap(regions: seq<Region>, chain: seq<Chunk>, chunk: Chunk, base: nat, end: nat, c: Chunk, base': nat, end': nat)
    requires AllPlaced(regions, chain, chunk, base, end) && c !in chain
    requires chain != [] && chunk == chain[|chain| - 1] && !chunk.dirty
    ensures AllPlaced(regions, chain[..|chain| - 1] + [c], c, base', end')
  {
    forall r | r in regions
      ensures Placed(r, chain[..|chain| - 1] + [c], c, base', end')
    {
      assert Placed(r, chain, chunk, base, end);
    }
  }

  class Buffer {
    var chunk: Chunk
    var base: nat
    var ptr: nat
    var end: nat

    ghost var chain: seq<Chunk>
    ghost var freed: set<Chunk>
    ghost var regions: seq<Region>

    ghost predicate Valid()
      reads this, (set c <- chain)`prev, (set c <- chain)`dirty
    {
      && Chained(chain) && chunk == chain[|chain| - 1]
      && (forall c :: c in chain ==> c !in freed)
      && BUF <= base <= ptr <= end <= chunk.bytes.Length
      && AllPlaced(regions, chain, chunk, base, end) && AllApart(regions)
    }

    ghost function Unfinished(): (r: seq<Byte>)
      reads this, chunk.bytes
      requires base <= ptr <= chunk.bytes.Length
    {
      chunk.bytes[base..ptr]
    }

    /** `nxb_init` with the first chunk behind the buffer's own fields. */
    constructor (size: nat)
      requires size >= BUF + ENOUGH
      ensures Valid() && fresh(chunk) && fresh(chunk.bytes) && regions == [] && Unfinished() == []
      ensures chunk.bytes.Length == size && end == size && chain == [chunk] && freed == {} && !chunk.dirty
    {
      chunk := new Chunk(size, null, false);
      base, ptr, end := BUF, BUF, size;
      chain, freed, regions := [chunk], {}, [];
    }

    /** `nxb_realloc_chunk`: the unfinished stream moves to a larger chunk; the old one is released
        at once only if nothing in it has been handed out. */
    method Grow(room: nat)
      requires Valid()
      modifies this`chunk, this`base, this`ptr, this`end, this`chain, this`freed
      ensures Valid() && fresh(chunk) && fresh(chunk.bytes)
      ensures Unfinished() == old(Unfinished())
      ensures chunk.bytes.Length == CHUNK + NewSize(old(chunk.bytes.Length) - BUF, old(ptr - base), room)
      ensures end == chunk.bytes.Length && base == BUF && end - ptr >= room
      ensures if old(!chunk.dirty && chunk.shouldFree)
              then chain == old(chain)[..|old(chain)| - 1] + [chunk] && freed == old(freed) + {old(chunk)}
              else chain == old(chain) + [chunk] && freed == old(freed)
    {
      hide Chained, AllPlaced, AllApart, NewSize;
      var used := ptr - base;
      var size := NewSize(chunk.bytes.Length - BUF, used, room);
      GrowthSuffices(chunk.bytes.Length - BUF, used, room);
      LastLarge(chain);
      var c := Larger(CHUNK + size);
      Link(c);
      base, ptr, end, chunk := BUF, BUF + used, c.bytes.Length, c;
    }

    /** A new chunk behind the current one, with the unfinished stream in it. */
    method Larger(size: nat) returns (c: Chunk)
      requires base <= ptr <= chunk.bytes.Length && BUF + ptr - base <= size
      ensures fresh(c) && fresh(c.bytes) && c.bytes.Length == size && c.prev == chunk && c.shouldFree && !c.dirty
      ensures c.bytes[BUF..BUF + ptr - base] == Unfinished()
    {
      c := new Chunk(size, chunk, true);
      CopyOctets(c.bytes, BUF, chunk.bytes[base..ptr]);
    }

    method Link(c: Chunk)
      requires Valid() && c !in chain && c !in freed && (forall d :: d in chain ==> d.bytes != c.bytes)
      requires c.bytes.Length >= BUF + ENOUGH && c.prev == chunk && c.shouldFree
      modifies this`chain, this`freed, c`prev
      ensures Chained(chain) && (forall d :: d in chain ==> d !in freed)
      ensures if !chunk.dirty && chunk.shouldFree
              then chain == old(chain)[..|old(chain)| - 1] + [c] && freed == old(freed) + {chunk}
              else chain == old(chain) + [c] && freed == old(freed)
      ensures AllPlaced(regions, chain, c, BUF, c.bytes.Length)
    {
      hide Chained, AllPlaced, AllApart, NewSize;
      if !chunk.dirty && chunk.shouldFree {
        Distinct(chain);
        c.prev := chunk.prev;
        ChainSwap(chain, c);
        PlacedSwap(regions, chain, chunk, base, end, c, BUF, c.bytes.Length);
        freed := freed + {chunk};
        chain := chain[..|chain| - 1] + [c];
      } else {
        ChainPush(chain, c);
        PlacedPush(regions, chain, chunk, base, end, c, BUF, c.bytes.Length);
        chain := chain + [c];
      }
    }

    /** Writes behind the unfinished stream. */
    method Put(data: seq<Byte>)
      requires Valid() && ptr + |data| <= end
      modifies this`ptr, chunk.bytes
      ensures Valid() && Unfinished() == old(Unfinished()) + data && ptr == old(ptr) + |data|
      ensures forall r :: r in regions ==> Held(r) == old(Held(r))
    {
      hide Chained, AllPlaced, AllApart;
      LastLarge(chain);
      ghost var was := chunk.bytes[..];
      CopyOctets(chunk.bytes, ptr, data);
      forall r | r in regions
        ensures Held(r) == old(Held(r))
      {
        OutOfTheWay(r, chain, regions, chunk, base, end);
        Untouched(was, chunk.bytes[..], r.lo, r.hi, ptr, |data|);
      }
      ptr := ptr + |data|;
      assert chunk.bytes[base..ptr] == chunk.bytes[base..old(ptr)] + chunk.bytes[old(ptr)..ptr];
      assert chunk.bytes[base..old(ptr)] == chunk.bytes[..old(ptr)][base..];
    }

    /** `nxb_make_room` */
    method MakeRoom(room: nat)
      requires Valid()
      modifies this`chunk, this`base, this`ptr, this`end, this`chain, this`freed
      ensures Valid() && end - ptr >= room && Unfinished() == old(Unfinished())
      ensures if old(end - ptr) >= room
              then chunk == old(chunk) && base == old(base) && ptr == old(ptr) && end == old(end) && chain == old(chain) && freed == old(freed)
              else fresh(chunk) && fresh(chunk.bytes)
    {
      if end - ptr < room { Grow(room); }
    }

    /** `nxb_append` */
    method Append(data: seq<Byte>)
      requires Valid()
      modifies this`chunk, this`base, this`ptr, this`end, this`chain, this`freed, chunk.bytes
      ensures Valid() && Unfinished() == old(Unfinished()) + data
      ensures forall r :: r in regions ==> Held(r) == old(Held(r))
      ensures if old(end - ptr) >= |data| then chunk == old(chunk) && base == old(base) && end == old(end) else fresh(chunk)
    {
      hide Chained, AllPlaced, AllApart;
      MakeRoom(|data|);
      Put(data);
    }

    method Mark()
      requires Valid()
      modifies chunk`dirty
      ensures Valid() && chunk.dirty
    {
      chunk.dirty := true;
    }

    /** `nxb_finish_partial`; `nxb_finish_stream` finishes all of the stream. */
    method Finish(size: nat)
      requires Valid() && size <= ptr - base
      modifies this`base, this`regions, chunk`dirty
      ensures Valid() && regions == old(regions) + [Region(chunk, old(base), old(base) + size)]
      ensures Held(Region(chunk, old(base), old(base) + size)) == old(Unfinished())[..size]
      ensures Unfinished() == old(Unfinished())[size..]
    {
      hide Chained, AllPlaced, AllApart;
      LastLarge(chain);
      Mark();
      assert chunk.bytes[base..ptr][..size] == chunk.bytes[base..base + size];
      assert chunk.bytes[base..ptr][size..] == chunk.bytes[base + size..ptr];
      var r := Region(chunk, base, base + size);
      HandOut(regions, chain, chunk, base, end, r, base + size, end);
      base := base + size;
      regions := regions + [r];
    }

    /** `nxb_unfinish_stream` */
    method Unfinish()
      requires Valid()
      modifies this`ptr
      ensures Valid() && Unfinished() == []
    {
      ptr := base;
    }

    /** `nxb_alloc_obj`: an aligned range, clear of the stream and of all that was handed out. */
    method AllocObj(size: nat) returns (obj: nat)
      requires Valid()
      modifies this`chunk, this`base, this`ptr, this`end, this`chain, this`freed, this`regions, chunk`dirty
      ensures Valid() && regions == old(regions) + [Region(chunk, obj, obj + size)]
      ensures obj % 16 == 0 && ptr <= obj == end && Unfinished() == old(Unfinished())
      ensures if old(AlignDown(end - size) >= ptr)
              then chunk == old(chunk) && base == old(base) && ptr == old(ptr) && obj <= old(end) - size < obj + 16
                   && chain == old(chain) && freed == old(freed)
              else fresh(chunk) && obj <= chunk.bytes.Length - size < obj + 16
    {
      hide Chained, AllPlaced, AllApart, NewSize, AlignDown;
      LastLarge(chain);
      var at := AlignDown(end - size);
      Aligned(end - size);
      if at < ptr {
        Fits(chunk.bytes.Length - BUF, ptr - base, size);
        Grow(size);
        at := AlignDown(end - size);
        Aligned(end - size);
      }
      obj := at;
      LastLarge(chain);
      Mark();
      var r := Region(chunk, obj, obj + size);
      HandOut(regions, chain, chunk, base, end, r, base, obj);
      end := obj;
      regions := regions + [r];
    }

    /** `nxb_empty`: everything but the first chunk is released, each chunk once. */
    method Empty()
      requires Valid()
      modifies this
      ensures Valid() && chain == [old(chain)[0]] && regions == [] && Unfinished() == []
      ensures freed == old(freed) + Elems(old(chain)[1..]) && end == chunk.bytes.Length && base == BUF
    {
      var c, i := chunk, |chain| - 1;
      while c.prev != null
        invariant 0 <= i < |chain| && chain == old(chain) && c == chain[i]
        invariant freed == old(freed) + Elems(chain[i + 1..])
        decreases i
      {
        assert ChainedAt(chain, i);
        assert c !in freed;
        if c.shouldFree { freed := freed + {c}; }
        c, i := c.prev, i - 1;
      }
      assert ChainedAt(chain, i);
      chunk, chain := c, [c];
      assert ChainedAt(chain, 0);
      regions := [];
      base, ptr, end := BUF, BUF, chunk.bytes.Length;
    }
  }

  ghost function Elems(s: seq<Chunk>): (r: set<Chunk>) {
    set c | c in s
  }

  /** What a region holds. */
  ghost function Held(r: Region): (res: seq<Byte>)
    reads r.chunk.bytes
  {
    if r.lo <= r.hi <= r.chunk.bytes.Length then r.chunk.bytes[r.lo..r.hi] else []
  }

  lemma OutOfTheWay(r: Region, chain: seq<Chunk>, regions: seq<Region>, chunk: Chunk, base: nat, end: nat)
    requires r in regions && Chained(chain) && chunk in chain && AllPlaced(regions, chain, chunk, base, end)
    ensures r.lo <= r.hi && if r.chunk == chunk then r.hi <= base || end <= r.lo else r.chunk.bytes != chunk.bytes
  {
    assert Placed(r, chain, chunk, base, end);
  }

  lemma Subslice(s: seq<Byte>, k: nat, lo: nat, hi: nat)
    requires k <= lo <= hi <= |s|
    ensures s[k..][lo - k..hi - k] == s[lo..hi]
  {
  }

  lemma Untouched(was: seq<Byte>, now: seq<Byte>, lo: nat, hi: nat, at: nat, size: nat)
    requires |was| == |now| && at + size <= |was|
    requires now[..at] == was[..at] && now[at + size..] == was[at + size..]
    ensures lo <= hi <= |was| && (hi <= at || at + size <= lo) ==> now[lo..hi] == was[lo..hi]
  {
    if lo <= hi <= |was| && hi <= at {
      assert now[lo..hi] == now[..at][lo..hi] && was[lo..hi] == was[..at][lo..hi];
    } else if lo <= hi <= |was| && at + size <= lo {
      Subslice(now, at + size, lo, hi);
      Subslice(was, at + size, lo, hi);
    }
  }

  /** A range out of the free space can be handed out. */
  lemma HandOut(regions: seq<Region>, chain: seq<Chunk>, chunk: Chunk, base: nat, end: nat, r: Region, base': nat, end': nat)
    requires AllPlaced(regions, chain, chunk, base, end) && AllApart(regions)
    requires chunk in chain && chunk.dirty && r.chunk == chunk
    requires BUF <= base <= r.lo <= r.hi <= end <= chunk.bytes.Length
    requires base <= base' && end' <= end && (r.hi <= base' || end' <= r.lo)
    ensures AllPlaced(regions + [r], chain, chunk, base', end') && AllApart(regions + [r])
  {
    forall s | s in regions + [r]
      ensures Placed(s, chain, chunk, base', end')
    {
      if s in regions { assert Placed(s, chain, chunk, base, end); }
    }
    forall i | 0 <= i < |regions|
      ensures Apart(regions[i], r)
    {
      assert Placed(regions[i], chain, chunk, base, end);
    }
  }

  lemma LastLarge(chain: seq<Chunk>)
    requires Chained(chain)
    ensures chain != [] && chain[|chain| - 1].bytes.Length >= BUF + ENOUGH
  {
    assert ChainedAt(chain, |chain| - 1);
  }

  lemma Distinct(chain: seq<Chunk>)
    requires Chained(chain)
    ensures chain != [] && chain[|chain| - 1] !in chain[..|chain| - 1]
  {
  }
}
