/** The packed bucket flags of `alignhash_tpl.h`: sixteen two-bit cells in each 32-bit word. */
module PackedFlags {

  /** Bit 0 of a cell says deleted, bit 1 says empty. */
  datatype Flag = Live | Deleted | Empty | Both

  const WORD := 16

  /** `((i) & 0xfU) << 1`, as a shift count. */
  const SHIFTS: seq<bv32> := [0, 2, 4, 6, 8, 10, 12, 14, 16, 18, 20, 22, 24, 26, 28, 30]

  lemma ShiftsDiffer(a: nat, b: nat)
    requires a < WORD && b < WORD
    ensures |SHIFTS| == WORD && SHIFTS[a] <= 30 && SHIFTS[a] & 1 == 0
    ensures a != b ==> SHIFTS[a] != SHIFTS[b]
  {
  }

  function CellOf(w: bv32, s: bv32): (r: bv32)
    requires s <= 31
  {
    (w >> s) & 3
  }

  function Decode(c: bv32): (r: Flag) {
    if c == 0 then Live else if c == 1 then Deleted else if c == 2 then Empty else Both
  }

  function Shift(i: nat): (s: bv32)
    ensures s <= 30 && s & 1 == 0
  {
    ShiftsDiffer(i % WORD, i % WORD);
    SHIFTS[i % WORD]
  }

  // The three writes the table makes: set the deleted bit, clear the empty bit, clear both.

  function WithDel(w: bv32, s: bv32): (r: bv32)
    requires s <= 30
  {
    w | ((1 as bv32) << s)
  }

  function WithoutEmpty(w: bv32, s: bv32): (r: bv32)
    requires s <= 30
  {
    w & !((2 as bv32) << s)
  }

  function WithoutBoth(w: bv32, s: bv32): (r: bv32)
    requires s <= 30
  {
    w & !((3 as bv32) << s)
  }

  lemma WithDelCell(w: bv32, s: bv32, t: bv32)
    requires s <= 30 && t <= 30 && s & 1 == 0 && t & 1 == 0
    ensures CellOf(WithDel(w, s), t) == if s == t then CellOf(w, t) | 1 else CellOf(w, t)
  {
  }

  lemma WithoutEmptyCell(w: bv32, s: bv32, t: bv32)
    requires s <= 30 && t <= 30 && s & 1 == 0 && t & 1 == 0
    ensures CellOf(WithoutEmpty(w, s), t) == if s == t then CellOf(w, t) & 1 else CellOf(w, t)
  {
  }

  lemma WithoutBothCell(w: bv32, s: bv32, t: bv32)
    requires s <= 30 && t <= 30 && s & 1 == 0 && t & 1 == 0
    ensures CellOf(WithoutBoth(w, s), t) == if s == t then 0 else CellOf(w, t)
  {
  }

  function FlagAt(words: seq<bv32>, i: nat): (r: Flag)
    requires i < WORD * |words|
  {
    Decode(CellOf(words[i / WORD], Shift(i)))
  }

  /** The cells of `n` buckets. */
  ghost function View(words: seq<bv32>, n: nat): (f: seq<Flag>)
    requires n <= WORD * |words|
    ensures |f| == n
  {
    if n == 0 then [] else View(words, n - 1) + [FlagAt(words, n - 1)]
  }

  lemma {:induction false} ViewAt(words: seq<bv32>, n: nat, i: nat)
    requires i < n <= WORD * |words|
    ensures View(words, n)[i] == FlagAt(words, i)
    decreases n
  {
    if i < n - 1 {
      ViewAt(words, n - 1, i);
    }
  }

  /** A write to the word of bucket `i` that leaves the word's other cells alone. */
  lemma ViewUpdate(words: seq<bv32>, n: nat, i: nat, w: bv32)
    requires n <= WORD * |words| && i < n
    requires forall t: bv32 :: t <= 30 && t & 1 == 0 && t != Shift(i) ==> CellOf(w, t) == CellOf(words[i / WORD], t)
    ensures View(words[i / WORD := w], n) == View(words, n)[i := Decode(CellOf(w, Shift(i)))]
    ensures View(words, n)[i] == FlagAt(words, i)
  {
    var words' := words[i / WORD := w];
    ViewAt(words, n, i);
    ViewAt(words', n, i);
    forall j | 0 <= j < n && j != i
      ensures View(words', n)[j] == View(words, n)[j]
    {
      ViewAt(words, n, j);
      ViewAt(words', n, j);
      if j / WORD == i / WORD {
        ShiftsDiffer(j % WORD, i % WORD);
      }
    }
  }

  lemma CellBits(c: bv32)
    requires c <= 3
    ensures Decode(c & 1) == if Decode(c) in {Live, Empty} then Live else Deleted
    ensures Decode(c | 1) == if Decode(c) in {Live, Deleted} then Deleted else Both
  {
  }

  lemma CellRange(w: bv32, s: bv32)
    requires s <= 30
    ensures CellOf(w, s) <= 3
  {
  }

  /** `AH_ISDEL`, `AH_ISEMPTY` and, as the absence of both, `AH_ISEITHER` */
  method Tests(words: array<bv32>, i: nat, ghost n: nat) returns (del: bool, empty: bool)
    requires i < n <= WORD * words.Length
    ensures var c := View(words[..], n)[i];
            del == (c == Deleted || c == Both) && empty == (c == Empty || c == Both)
  {
    var c := words[i / WORD] >> Shift(i);
    del, empty := c & 1 != 0, c & 2 != 0;
    ViewAt(words[..], n, i);
    TestBits(c);
  }

  lemma TestBits(c: bv32)
    ensures c & 1 != 0 <==> Decode(c & 3) == Deleted || Decode(c & 3) == Both
    ensures c & 2 != 0 <==> Decode(c & 3) == Empty || Decode(c & 3) == Both
    ensures c & 3 == 0 <==> c & 1 == 0 && c & 2 == 0
  {
  }

  /** `AH_SET_DEL` */
  method SetDel(words: array<bv32>, i: nat, ghost n: nat)
    requires i < n <= WORD * words.Length
    modifies words
    ensures var f := old(View(words[..], n));
            View(words[..], n) == f[i := if f[i] in {Live, Deleted} then Deleted else Both]
  {
    ghost var was := words[..];
    ghost var w := words[i / WORD];
    forall t: bv32 | t <= 30 && t & 1 == 0
      ensures CellOf(WithDel(w, Shift(i)), t) == if Shift(i) == t then CellOf(w, t) | 1 else CellOf(w, t)
    {
      WithDelCell(w, Shift(i), t);
    }
    CellRange(w, Shift(i));
    CellBits(CellOf(w, Shift(i)));
    ViewUpdate(was, n, i, WithDel(w, Shift(i)));
    words[i / WORD] := WithDel(words[i / WORD], Shift(i));
    assert words[..] == was[i / WORD := WithDel(w, Shift(i))];
  }

  /** `AH_CLEAR_EMPTY` */
  method ClearEmpty(words: array<bv32>, i: nat, ghost n: nat)
    requires i < n <= WORD * words.Length
    modifies words
    ensures var f := old(View(words[..], n));
            View(words[..], n) == f[i := if f[i] in {Live, Empty} then Live else Deleted]
  {
    ghost var was := words[..];
    ghost var w := words[i / WORD];
    forall t: bv32 | t <= 30 && t & 1 == 0
      ensures CellOf(WithoutEmpty(w, Shift(i)), t) == if Shift(i) == t then CellOf(w, t) & 1 else CellOf(w, t)
    {
      WithoutEmptyCell(w, Shift(i), t);
    }
    CellRange(w, Shift(i));
    CellBits(CellOf(w, Shift(i)));
    ViewUpdate(was, n, i, WithoutEmpty(w, Shift(i)));
    words[i / WORD] := WithoutEmpty(words[i / WORD], Shift(i));
    assert words[..] == was[i / WORD := WithoutEmpty(w, Shift(i))];
  }

  /** `AH_CLEAR_BOTH` */
  method ClearBoth(words: array<bv32>, i: nat, ghost n: nat)
    requires i < n <= WORD * words.Length
    modifies words
    ensures View(words[..], n) == old(View(words[..], n))[i := Live]
  {
    ghost var was := words[..];
    ghost var w := words[i / WORD];
    forall t: bv32 | t <= 30 && t & 1 == 0
      ensures CellOf(WithoutBoth(w, Shift(i)), t) == if Shift(i) == t then 0 else CellOf(w, t)
    {
      WithoutBothCell(w, Shift(i), t);
    }
    ViewUpdate(was, n, i, WithoutBoth(w, Shift(i)));
    words[i / WORD] := WithoutBoth(words[i / WORD], Shift(i));
    assert words[..] == was[i / WORD := WithoutBoth(w, Shift(i))];
  }

  /** `AH_FLAGS_BYTE` counted in words, and `memset(flags, 0xaa, …)`: every bucket is empty. */
  method AllEmpty(n: nat) returns (words: array<bv32>)
    requires n < WORD || n % WORD == 0
    ensures fresh(words) && n <= WORD * words.Length && words.Length == if n < 16 then 1 else n / 16
    ensures View(words[..], n) == seq(n, _ => Empty)
  {
    words := new bv32[if n < WORD then 1 else n / WORD](_ => 0xaaaa_aaaa);
    forall i | 0 <= i < n
      ensures View(words[..], n)[i] == Empty
    {
      ViewAt(words[..], n, i);
      EmptyWord(i);
    }
  }

  lemma EmptyWord(i: nat)
    ensures Decode(CellOf(0xaaaa_aaaa, Shift(i))) == Empty
  {
    EvenShift(Shift(i));
  }

  lemma EvenShift(s: bv32)
    requires s <= 30 && s & 1 == 0
    ensures CellOf(0xaaaa_aaaa, s) == 2
  {
  }
}
