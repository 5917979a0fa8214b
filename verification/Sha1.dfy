/** The incremental SHA-1 of `sha1.c` against the definition of FIPS PUB 180-1. */
module Sha1 {

  type Byte = bv8
  type Word = bv32

  /** The five words of the hash value, and the word buffers of a block's rounds. */
  datatype Five = Five(a: Word, b: Word, c: Word, d: Word, e: Word)

  const START := Five(0x67452301, 0xEFCDAB89, 0x98BADCFE, 0x10325476, 0xC3D2E1F0)

  const BLOCK := 64

  // ---------------------------------------------------------------- the standard

  function Rotate(n: nat, w: Word): (r: Word)
    requires n == 1 || n == 5 || n == 30
  {
    if n == 1 then (w << 1) | (w >> 31) else if n == 5 then (w << 5) | (w >> 27) else (w << 30) | (w >> 2)
  }

  /** Section 5: the logical functions. */
  function F(t: nat, b: Word, c: Word, d: Word): (r: Word) {
    if t < 20 then (b & c) | (!b & d)
    else if t < 40 then b ^ c ^ d
    else if t < 60 then (b & c) | (b & d) | (c & d)
    else b ^ c ^ d
  }

  /** Section 6: the constants. */
  function K(t: nat): (r: Word) {
    if t < 20 then 0x5A827999 else if t < 40 then 0x6ED9EBA1 else if t < 60 then 0x8F1BBCDC else 0xCA62C1D6
  }

  function WordOf(b: seq<Byte>, t: nat): (r: Word)
    requires 4 * t + 3 < |b|
  {
    ((b[4 * t] as Word) << 24) | ((b[4 * t + 1] as Word) << 16) | ((b[4 * t + 2] as Word) << 8) | (b[4 * t + 3] as Word)
  }

  /** Section 7, steps a and b: the first `n` words of a block's schedule. */
  ghost function Schedule(b: seq<Byte>, n: nat): (w: seq<Word>)
    requires |b| == BLOCK && n <= 80
    ensures |w| == n
  {
    if n == 0 then []
    else
      var w := Schedule(b, n - 1);
      var t := n - 1;
      w + [if t < 16 then WordOf(b, t) else Mix(w[t - 3], w[t - 8], w[t - 14], w[t - 16])]
  }

  function Mix(a: Word, b: Word, c: Word, d: Word): (r: Word) {
    Rotate(1, a ^ b ^ c ^ d)
  }

  /** Step d for one `t`. */
  function Round(h: Five, t: nat, w: Word): (r: Five) {
    Five(Sum(Rotate(5, h.a), F(t, h.b, h.c, h.d), h.e, w, K(t)), h.a, Rotate(30, h.b), h.c, h.d)
  }

  /** Addition modulo 2^32. */
  function Sum(a: Word, b: Word, c: Word, d: Word, e: Word): (r: Word) {
    a + b + c + d + e
  }

  ghost function Rounds(h: Five, w: seq<Word>, n: nat): (r: Five)
    requires n <= |w|
  {
    if n == 0 then h else Round(Rounds(h, w, n - 1), n - 1, w[n - 1])
  }

  function Add(g: Five, h: Five): (r: Five) {
    Five(g.a + h.a, g.b + h.b, g.c + h.c, g.d + h.d, g.e + h.e)
  }

  /** Step e: the hash value behind a block. */
  ghost function Compress(h: Five, b: seq<Byte>): (r: Five)
    requires |b| == BLOCK
  {
    Add(h, Rounds(h, Schedule(b, 80), 80))
  }

  /** The hash value behind whole blocks. */
  ghost function Hash(h: Five, s: seq<Byte>): (r: Five)
    requires |s| % BLOCK == 0
    decreases |s|
  {
    if s == [] then h else Hash(Compress(h, s[..BLOCK]), s[BLOCK..])
  }

  function Zeros(n: nat): (z: seq<Byte>)
    ensures |z| == n && forall i :: 0 <= i < n ==> z[i] == 0
  {
    seq(n, _ => 0)
  }

  function ByteAt(n: nat, unit: nat): (r: Byte)
    requires unit > 0
  {
    (n / unit % 256) as Byte
  }

  /** A number below 2^64 as eight octets, the highest first. */
  function Octets(n: nat): (s: seq<Byte>)
    ensures |s| == 8
  {
    [ByteAt(n, 0x100_0000_0000_0000), ByteAt(n, 0x1_0000_0000_0000), ByteAt(n, 0x100_0000_0000), ByteAt(n, 0x1_0000_0000),
     ByteAt(n, 0x100_0000), ByteAt(n, 0x1_0000), ByteAt(n, 0x100), ByteAt(n, 1)]
  }

  /** Section 4: a one bit, zeros, and the length, up to a multiple of 512 bits. */
  function Padding(len: nat): (p: seq<Byte>)
    ensures (len + |p|) % BLOCK == 0
  {
    hide Octets;
    PaddingFits(len);
    [0x80 as Byte] + Zeros(FillerFor(len % BLOCK)) + Octets(8 * len)
  }

  /** Zeros between the one bit and the length, behind `i` octets of the last block. */
  function FillerFor(i: nat): (r: nat)
    requires i < BLOCK
  {
    if i <= 55 then 55 - i else 119 - i
  }

  /** The zeros make up a whole block, and there are no more of them than that takes. */
  lemma PaddingFits(len: nat)
    ensures (len + 9 + FillerFor(len % BLOCK)) % BLOCK == 0 && FillerFor(len % BLOCK) < BLOCK
  {
  }

  /** The number that octets stand for, the highest first. */
  function Value(s: seq<Byte>): (n: nat) {
    if s == [] then 0 else Value(s[..|s| - 1]) * 256 + s[|s| - 1] as nat
  }

  /** The length octets stand for the length. */
  lemma OctetsValue(n: nat)
    requires n < 0x1_0000_0000_0000_0000
    ensures Value(Octets(n)) == n
  {
    hide ByteAt, Value;
    var s := Octets(n);
    Shifts(n);
    NoValue(s[..0]);
    ValueStep(n, s, 0, 0x100_0000_0000_0000);
    ValueStep(n, s, 1, 0x1_0000_0000_0000);
    ValueStep(n, s, 2, 0x100_0000_0000);
    ValueStep(n, s, 3, 0x1_0000_0000);
    ValueStep(n, s, 4, 0x100_0000);
    ValueStep(n, s, 5, 0x1_0000);
    ValueStep(n, s, 6, 0x100);
    ValueStep(n, s, 7, 1);
    assert s[..8] == s;
  }

  lemma Shifts(n: nat)
    ensures n < 0x1_0000_0000_0000_0000 ==> n / 0x100_0000_0000_0000 / 256 == 0
    ensures n / 0x1_0000_0000_0000 / 256 == n / 0x100_0000_0000_0000
    ensures n / 0x100_0000_0000 / 256 == n / 0x1_0000_0000_0000
    ensures n / 0x1_0000_0000 / 256 == n / 0x100_0000_0000
    ensures n / 0x100_0000 / 256 == n / 0x1_0000_0000
    ensures n / 0x1_0000 / 256 == n / 0x100_0000
    ensures n / 0x100 / 256 == n / 0x1_0000
    ensures n / 1 / 256 == n / 0x100
  {
  }

  lemma NoValue(s: seq<Byte>)
    requires s == []
    ensures Value(s) == 0
  {
  }

  lemma ValueStep(n: nat, s: seq<Byte>, k: nat, unit: nat)
    requires k < |s| && unit > 0 && s[k] == ByteAt(n, unit) && Value(s[..k]) == n / unit / 256
    ensures Value(s[..k + 1]) == n / unit
  {
    assert s[..k + 1][..k] == s[..k];
    ByteIs(n / unit);
  }

  lemma ByteIs(m: nat)
    ensures m == m / 256 * 256 + (m % 256) as Byte as nat
  {
  }

  /** The digest of a message. */
  ghost function Digest(m: seq<Byte>): (r: Five) {
    Hash(START, m + Padding(|m|))
  }

  lemma {:induction false} HashConcat(h: Five, s: seq<Byte>, t: seq<Byte>)
    requires |s| % BLOCK == 0 && |t| % BLOCK == 0
    ensures Hash(h, s + t) == Hash(Hash(h, s), t)
    decreases |s|
  {
    if s == [] {
      assert s + t == t;
    } else {
      assert (s + t)[..BLOCK] == s[..BLOCK] && (s + t)[BLOCK..] == s[BLOCK..] + t;
      HashConcat(Compress(h, s[..BLOCK]), s[BLOCK..], t);
    }
  }

  lemma HashOne(h: Five, b: seq<Byte>)
    requires |b| == BLOCK
    ensures Hash(h, b) == Compress(h, b)
  {
    assert b[..BLOCK] == b && b[BLOCK..] == [];
    assert Hash(Compress(h, b), []) == Compress(h, b);
  }

  // ---------------------------------------------------------------- the context

  /** The 64-bit length of a message in its two halves. */
  const HALF := 0x1_0000_0000

  class Context {
    var digest: Five
    var lengthLow: nat
    var lengthHigh: nat
    const block: array<Byte>
    var index: nat
    var computed: bool
    var corrupted: bool

    /** The octets taken in so far. */
    ghost var message: seq<Byte>

    ghost predicate Valid()
      reads this, block
    {
      && block.Length == BLOCK
      && (!corrupted && !computed ==> Absorbed(message))
      && (!corrupted && computed ==> digest == Digest(message))
    }

    /** Whole blocks of `m` are in the digest, its rest is in the block, its length in the counters. */
    ghost predicate Absorbed(m: seq<Byte>)
      reads this, block
      requires block.Length == BLOCK
    {
      && index == |m| % BLOCK && block[..index] == m[|m| - index..]
      && digest == Hash(START, m[..|m| - index])
      && lengthLow < HALF && lengthHigh < HALF && lengthHigh * HALF + lengthLow == 8 * |m|
    }

    /** `SHA1Reset` */
    constructor ()
      ensures Valid() && fresh(block) && message == [] && !computed && !corrupted
    {
      lengthLow, lengthHigh, index := 0, 0, 0;
      digest := START;
      computed, corrupted := false, false;
      message := [];
      block := new Byte[BLOCK];
    }

    /** `SHA1ProcessMessageBlock` */
    method ProcessMessageBlock()
      requires block.Length == BLOCK
      modifies this`digest, this`index
      ensures digest == Compress(old(digest), block[..]) && index == 0
    {
      hide Round, Add, Rounds;
      var w := MakeSchedule(block[..]);
      var h := digest;
      StartRounds(digest, w);
      h := TwentyRounds(h, w, 0, digest);
      h := TwentyRounds(h, w, 20, digest);
      h := TwentyRounds(h, w, 40, digest);
      h := TwentyRounds(h, w, 60, digest);
      digest := Add(digest, h);
      index := 0;
    }
  
    /** Counts one octet; the message is too long once its bits do not fit 64 bits. */
    method Count(ghost n: nat)
      requires !corrupted && lengthLow < HALF && lengthHigh < HALF && lengthHigh * HALF + lengthLow == 8 * n
      modifies this`lengthLow, this`lengthHigh, this`corrupted
      ensures corrupted <==> 8 * (n + 1) >= HALF * HALF
      ensures !corrupted ==>
                lengthLow < HALF && lengthHigh < HALF && lengthHigh * HALF + lengthLow == 8 * (n + 1)
    {
      lengthLow := (lengthLow + 8) % HALF;
      if lengthLow == 0 {
        lengthHigh := (lengthHigh + 1) % HALF;
        if lengthHigh == 0 { corrupted := true; }
      }
    }

    /** Puts one octet of the message into the block, counts it, and processes a full block. */
    method Absorb(c: Byte)
      requires Valid() && !computed && !corrupted
      modifies this, block
      ensures Valid() && !computed && message == old(message) + [c]
      ensures corrupted <==> 8 * |message| >= HALF * HALF
    {
      hide Hash, Compress, Digest;
      ghost var m, i := message, index;
      ghost var part := block[..i];
      block[index] := c;
      assert block[..i + 1] == part + [c];
      index := index + 1;
      message := message + [c];
      Count(|m|);
      if index == BLOCK {
        assert block[..] == part + [c];
        FullBlock(m, c, block[..], digest);
        ProcessMessageBlock();
      } else {
        PartBlock(m, c, i);
      }
    }

    /** `SHA1Input`: every further octet is taken in, unless the digest has been asked for or the
        message has become too long. */
    method Input(data: seq<Byte>)
      requires Valid()
      modifies this, block
      ensures Valid() && computed == old(computed)
      ensures data == [] ==> message == old(message) && corrupted == old(corrupted)
      ensures data != [] && (old(computed) || old(corrupted)) ==> corrupted
      ensures data != [] && !old(computed) && !old(corrupted) ==>
                && corrupted == (8 * (|old(message)| + |data|) >= HALF * HALF)
                && (!corrupted ==> message == old(message) + data)
    {
      if data == [] { return; }
      if computed || corrupted {
        corrupted := true;
        return;
      }
      var i := 0;
      ghost var m := message;
      assert m + data[..0] == m;
      while i < |data| && !corrupted
        invariant 0 <= i <= |data| && Valid() && !computed
        invariant message == m + data[..i]
        invariant corrupted <==> i > 0 && 8 * |message| >= HALF * HALF
      {
        assert m + data[..i] + [data[i]] == m + data[..i + 1];
        Absorb(data[i]);
        i := i + 1;
      }
      assert i == |data| ==> data[..i] == data;
    }

    /** The loops that fill the block with zeros. */
    method ZeroUpTo(n: nat)
      requires block.Length == BLOCK && index <= n <= BLOCK
      modifies this`index, block
      ensures index == n && block[..n] == old(block[..index]) + Zeros(n - old(index))
    {
      ghost var i, part := index, block[..index];
      while index < n
        invariant i <= index <= n && block[..index] == part + Zeros(index - i)
      {
        ghost var k := index;
        block[index] := 0;
        index := index + 1;
        assert block[..k + 1] == part + Zeros(k - i) + [0];
        assert Zeros(k - i) + [0] == Zeros(k + 1 - i);
      }
    }

    method PutLength()
      requires block.Length == BLOCK && lengthLow < HALF && lengthHigh < HALF
      modifies block
      ensures block[..] == old(block[..56]) + Octets(lengthHigh * HALF + lengthLow)
    {
      hide Octets, ByteAt;
      LengthOctets(lengthHigh * HALF + lengthLow, lengthHigh, lengthLow);
      ghost var part := block[..56];
      block[56] := ByteAt(lengthHigh, 0x100_0000);
      block[57] := ByteAt(lengthHigh, 0x1_0000);
      block[58] := ByteAt(lengthHigh, 0x100);
      block[59] := ByteAt(lengthHigh, 1);
      block[60] := ByteAt(lengthLow, 0x100_0000);
      block[61] := ByteAt(lengthLow, 0x1_0000);
      block[62] := ByteAt(lengthLow, 0x100);
      block[63] := ByteAt(lengthLow, 1);
      assert block[..56] == part;
    }

    /** The bit that ends the message. */
    method PutEnd()
      requires block.Length == BLOCK && index < BLOCK
      modifies this`index, block
      ensures index == old(index) + 1 && block[..index] == old(block[..index]) + [0x80]
    {
      block[index] := 0x80;
      index := index + 1;
    }

    /** `SHA1PadMessage` */
    method PadMessage()
      requires block.Length == BLOCK && Absorbed(message)
      modifies this`digest, this`index, block
      ensures digest == Digest(message)
    {
      hide Hash, Compress, Octets, Digest;
      ghost var m, i, d := message, index, digest;
      ghost var part := block[..index];
      if index > 55 {
        PutEnd();
        ZeroUpTo(BLOCK);
        ghost var b1 := block[..];
        assert b1 == block[..BLOCK] == part + [0x80] + Zeros(63 - i);
        ProcessMessageBlock();
        ZeroUpTo(56);
        assert block[..56] == Zeros(56);
        PutLength();
        TwoBlocks(m, b1, block[..], d);
      } else {
        PutEnd();
        ZeroUpTo(56);
        PutLength();
        OneBlock(m, block[..], d);
      }
      ProcessMessageBlock();
    }

    /** `SHA1Result`: whatever the message was split into, the digest is that of the whole. */
    method Result() returns (ok: bool)
      requires Valid()
      modifies this, block
      ensures Valid() && message == old(message) && corrupted == old(corrupted)
      ensures ok == !corrupted && (ok ==> computed && digest == Digest(message))
    {
      hide Digest, Hash;
      if corrupted { return false; }
      if !computed {
        PadMessage();
        computed := true;
      }
      return true;
    }
  }

  /** Padding that starts a second block. */
  lemma TwoBlocks(m: seq<Byte>, b1: seq<Byte>, b2: seq<Byte>, d: Five)
    requires var i := |m| % BLOCK;
             && i > 55 && d == Hash(START, m[..|m| - i])
             && b1 == m[|m| - i..] + [0x80 as Byte] + Zeros(63 - i)
             && b2 == Zeros(56) + Octets(8 * |m|)
    ensures |b1| == |b2| == BLOCK && Digest(m) == Compress(Compress(d, b1), b2)
  {
    hide Octets;
    var i := |m| % BLOCK;
    var k := |m| - i;
    assert Zeros(119 - i) == Zeros(63 - i) + Zeros(56);
    assert Padding(|m|) == [0x80 as Byte] + Zeros(63 - i) + b2;
    assert m == m[..k] + m[k..];
    assert m + Padding(|m|) == m[..k] + b1 + b2;
    HashConcat(START, m[..k] + b1, b2);
    HashConcat(START, m[..k], b1);
    HashOne(d, b1);
    HashOne(Compress(d, b1), b2);
  }

  /** Padding that fits the last block. */
  lemma OneBlock(m: seq<Byte>, b: seq<Byte>, d: Five)
    requires var i := |m| % BLOCK;
             && i <= 55 && d == Hash(START, m[..|m| - i])
             && b == m[|m| - i..] + [0x80 as Byte] + Zeros(55 - i) + Octets(8 * |m|)
    ensures |b| == BLOCK && Digest(m) == Compress(d, b)
  {
    hide Octets;
    var i := |m| % BLOCK;
    var k := |m| - i;
    assert m == m[..k] + m[k..];
    assert m + Padding(|m|) == m[..k] + b;
    HashConcat(START, m[..k], b);
    HashOne(d, b);
  }

  /** The two counters hold the octets of the length. */
  lemma LengthOctets(n: nat, high: nat, low: nat)
    requires low < HALF && high < HALF && high * HALF + low == n
    ensures Octets(n) == [ByteAt(high, 0x100_0000), ByteAt(high, 0x1_0000), ByteAt(high, 0x100), ByteAt(high, 1),
                          ByteAt(low, 0x100_0000), ByteAt(low, 0x1_0000), ByteAt(low, 0x100), ByteAt(low, 1)]
  {
    HighOctets(n, high, low);
    LowOctets(n, high, low);
  }

  lemma HighOctets(n: nat, high: nat, low: nat)
    requires low < HALF && n == high * HALF + low
    ensures n / 0x100_0000_0000_0000 == high / 0x100_0000
    ensures n / 0x1_0000_0000_0000 == high / 0x1_0000
    ensures n / 0x100_0000_0000 == high / 0x100
    ensures n / 0x1_0000_0000 == high
  {
  }

  lemma LowOctets(n: nat, high: nat, low: nat)
    requires n == high * HALF + low
    ensures n / 0x100_0000 % 256 == low / 0x100_0000 % 256
    ensures n / 0x1_0000 % 256 == low / 0x1_0000 % 256
    ensures n / 0x100 % 256 == low / 0x100 % 256
    ensures n % 256 == low % 256
  {
    assert n / 0x100_0000 == 256 * high + low / 0x100_0000;
    SameModulo(high, low / 0x100_0000);
    assert n / 0x1_0000 == 256 * (0x100 * high) + low / 0x1_0000;
    SameModulo(0x100 * high, low / 0x1_0000);
    assert n / 0x100 == 256 * (0x1_0000 * high) + low / 0x100;
    SameModulo(0x1_0000 * high, low / 0x100);
    SameModulo(0x100_0000 * high, low);
  }

  lemma SameModulo(k: nat, x: nat)
    ensures (256 * k + x) % 256 == x % 256
  {
  }

  lemma PartBlock(m: seq<Byte>, c: Byte, index: nat)
    requires index == |m| % BLOCK && index + 1 < BLOCK
    ensures |m + [c]| % BLOCK == index + 1
    ensures (m + [c])[|m| - index..] == m[|m| - index..] + [c]
    ensures (m + [c])[..|m| - index] == m[..|m| - index]
  {
  }

  lemma FullBlock(m: seq<Byte>, c: Byte, b: seq<Byte>, d: Five)
    requires |m| % BLOCK == BLOCK - 1 && b == m[|m| - (BLOCK - 1)..] + [c]
    requires d == Hash(START, m[..|m| - (BLOCK - 1)])
    ensures |m + [c]| % BLOCK == 0 && Hash(START, m + [c]) == Compress(d, b)
    ensures (m + [c])[..|m + [c]|] == m + [c]
  {
    var k := |m| - (BLOCK - 1);
    assert m + [c] == m[..k] + b;
    HashConcat(START, m[..k], b);
    HashOne(d, b);
  }

  lemma StartRounds(h: Five, w: seq<Word>)
    ensures Rounds(h, w, 0) == h
  {
  }

  /** The loops that fill the array of words: the first sixteen hold the octets of the block, and each later
      one, turned right by a bit, is the exclusive or of four before it. */
  method MakeSchedule(b: seq<Byte>) returns (s: seq<Word>)
    requires |b| == BLOCK
    ensures s == Schedule(b, 80)
    ensures forall t :: 0 <= t < 16 ==> Holds(s[t], b[4 * t], b[4 * t + 1], b[4 * t + 2], b[4 * t + 3])
    ensures forall t :: 16 <= t < 80 ==> TurnsInto(s[t], s[t - 3], s[t - 8], s[t - 14], s[t - 16])
  {
    hide Holds, TurnsInto, Schedule;
    s := FillWords(b);
    ScheduleRules(b);
  }

  method FillWords(b: seq<Byte>) returns (s: seq<Word>)
    requires |b| == BLOCK
    ensures s == Schedule(b, 80)
  {
    hide WordOf, Mix;
    var w := new Word[80];
    for t := 0 to 16
      invariant w[..t] == Schedule(b, t)
    {
      w[t] := WordOf(b, t);
      assert w[..t + 1] == w[..t] + [w[t]];
    }
    for t := 16 to 80
      invariant w[..t] == Schedule(b, t)
    {
      ghost var z := w[..t];
      w[t] := Mix(w[t - 3], w[t - 8], w[t - 14], w[t - 16]);
      assert w[t] == Mix(z[t - 3], z[t - 8], z[t - 14], z[t - 16]);
      assert w[..t + 1] == z + [w[t]];
    }
    s := w[..];
    assert s == w[..80];
  }

  lemma ScheduleRules(b: seq<Byte>)
    requires |b| == BLOCK
    ensures var s := Schedule(b, 80);
            && (forall t :: 0 <= t < 16 ==> Holds(s[t], b[4 * t], b[4 * t + 1], b[4 * t + 2], b[4 * t + 3]))
            && forall t :: 16 <= t < 80 ==> TurnsInto(s[t], s[t - 3], s[t - 8], s[t - 14], s[t - 16])
  {
    hide WordOf, Mix, Holds, TurnsInto, Schedule;
    var s := Schedule(b, 80);
    forall t | 0 <= t < 16 ensures Holds(s[t], b[4 * t], b[4 * t + 1], b[4 * t + 2], b[4 * t + 3]) {
      ScheduleAt(b, 80, t);
      WordWritten(b, t);
    }
    forall t | 16 <= t < 80 ensures TurnsInto(s[t], s[t - 3], s[t - 8], s[t - 14], s[t - 16]) {
      ScheduleAt(b, 80, t);
      MixWritten(s[t - 3], s[t - 8], s[t - 14], s[t - 16]);
    }
  }

  lemma {:induction false} ScheduleAt(b: seq<Byte>, n: nat, t: nat)
    requires |b| == BLOCK && t < n <= 80
    ensures var w := Schedule(b, n);
            w[t] == if t < 16 then WordOf(b, t) else Mix(w[t - 3], w[t - 8], w[t - 14], w[t - 16])
    decreases n
  {
    hide WordOf, Mix;
    if t < n - 1 { ScheduleAt(b, n - 1, t); }
  }

  /** The four octets of a word, the highest first. */
  predicate Holds(w: Word, a: Byte, b: Byte, c: Byte, d: Byte) {
    && (w >> 24) as Byte == a && ((w >> 16) & 0xff) as Byte == b
    && ((w >> 8) & 0xff) as Byte == c && (w & 0xff) as Byte == d
  }

  /** Turned right by one bit, the word is the exclusive or of the four others. */
  predicate TurnsInto(w: Word, a: Word, b: Word, c: Word, d: Word) {
    (w >> 1) | (w << 31) == a ^ b ^ c ^ d
  }

  lemma WordWritten(b: seq<Byte>, t: nat)
    requires 4 * t + 3 < |b|
    ensures Holds(WordOf(b, t), b[4 * t], b[4 * t + 1], b[4 * t + 2], b[4 * t + 3])
  {
  }

  lemma MixWritten(a: Word, b: Word, c: Word, d: Word)
    ensures TurnsInto(Mix(a, b, c, d), a, b, c, d)
  {
  }

  /** The expression written out in each of the four loops. */
  function LoopF(from: nat, b: Word, c: Word, d: Word): (r: Word) {
    if from == 0 then (b & c) | (!b & d) else if from == 40 then (b & c) | (b & d) | (c & d) else b ^ c ^ d
  }

  /** One of the four loops over twenty rounds, from word buffers reached from `g`. */
  method TwentyRounds(h: Five, w: seq<Word>, from: nat, ghost g: Five) returns (r: Five)
    requires |w| == 80 && (from == 0 || from == 20 || from == 40 || from == 60)
    requires Rounds(g, w, from) == h
    ensures Rounds(g, w, from + 20) == r
  {
    hide F, K, Rotate, LoopF, Sum;
    r := h;
    for t := from to from + 20
      invariant Rounds(g, w, t) == r
    {
      LoopConstants(from, t, r.b, r.c, r.d);
      var temp := Sum(Rotate(5, r.a), LoopF(from, r.b, r.c, r.d), r.e, w[t], K(from));
      r := Five(temp, r.a, Rotate(30, r.b), r.c, r.d);
    }
  }

  /** Each loop's expression and constant are those of the standard for its rounds. */
  lemma LoopConstants(from: nat, t: nat, b: Word, c: Word, d: Word)
    requires (from == 0 || from == 20 || from == 40 || from == 60) && from <= t < from + 20
    ensures LoopF(from, b, c, d) == F(t, b, c, d) && K(t) == K(from)
  {
  }
}
