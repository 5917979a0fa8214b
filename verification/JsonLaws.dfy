/** What the parser makes of escapes, comments and numbers, said of whole texts. */
module JsonLaws {
  import opened Octets
  import opened Sequences
  import opened JsonStrings
  import opened JsonParser
  import Encoder = ChunkedEncoder

  // ---------------------------------------------------------------- escapes

  /** Behind a backslash: a quote, a slash and a backslash stand for themselves, and the letters b, f, n, r and
      t for the control characters that section 7 of RFC 8259 gives them. */
  lemma LetterEscapes(rest: seq<Byte>)
    ensures Unescape(Ascii("\\\"") + rest) == Prepend(Ascii("\""), Unescape(rest))
    ensures Unescape(Ascii("\\\\") + rest) == Prepend(Ascii("\\"), Unescape(rest))
    ensures Unescape(Ascii("\\/") + rest) == Prepend(Ascii("/"), Unescape(rest))
    ensures Unescape(Ascii("\\b") + rest) == Prepend([0x08], Unescape(rest))
    ensures Unescape(Ascii("\\f") + rest) == Prepend([0x0c], Unescape(rest))
    ensures Unescape(Ascii("\\n") + rest) == Prepend([0x0a], Unescape(rest))
    ensures Unescape(Ascii("\\r") + rest) == Prepend([0x0d], Unescape(rest))
    ensures Unescape(Ascii("\\t") + rest) == Prepend([0x09], Unescape(rest))
  {
    hide Unescape, Ascii, Prepend;
    LetterEscape('\"', 34, rest);
    LetterEscape('\\', 92, rest);
    LetterEscape('/', 47, rest);
    LetterEscape('b', 0x08, rest);
    LetterEscape('f', 0x0c, rest);
    LetterEscape('n', 0x0a, rest);
    LetterEscape('r', 0x0d, rest);
    LetterEscape('t', 0x09, rest);
    OneCharacter('\"');
    OneCharacter('\\');
    OneCharacter('/');
  }

  lemma OneCharacter(c: char)
    requires c < 128 as char
    ensures Ascii([c]) == [c as int]
  {
  }

  lemma LetterEscape(c: char, v: Byte, rest: seq<Byte>)
    requires c < 128 as char && Short(c as int) == Some(v)
    ensures Unescape(Ascii(['\\', c]) + rest) == Prepend([v], Unescape(rest))
  {
    var s := Ascii(['\\', c]) + rest;
    assert s[1..][0] == c as int && s[2..] == rest;
  }

  /** No other character makes an escape, except u: the backslash is left alone. */
  lemma OtherEscapes(c: Byte, rest: seq<Byte>)
    requires c !in Ascii("\"\\/bfnrtu")
    ensures Unescape([BACKSLASH, c] + rest) == Prepend([BACKSLASH], Unescape([c] + rest))
  {
    var s, all := [BACKSLASH, c] + rest, Ascii("\"\\/bfnrtu");
    assert all[0] == 34 && all[1] == 92 && all[2] == 47 && all[3] == 98 && all[4] == 102;
    assert all[5] == 110 && all[6] == 114 && all[7] == 116 && all[8] == 117;
    assert s[1..] == [c] + rest && s[1..][0] == c;
  }

  /** The `\u` escape of a number below 2^16. */
  ghost function UEscape(n: nat): (s: seq<Byte>) {
    Ascii("\\u") + Encoder.Hex4(n)
  }

  /** Every character can be written as its number in four hexadecimal digits, or as the two of its surrogate
      pair, and is read as its UTF-8 form. */
  lemma CharacterEscapes(c: nat, rest: seq<Byte>)
    requires c <= 0xd7ff || 0xe000 <= c <= 0x10ffff
    ensures c < 0x10000 ==> Unescape(UEscape(c) + rest) == Prepend(Utf8(c).value, Unescape(rest))
    ensures c >= 0x10000 ==>
              var high, low := 0xd800 + (c - 0x10000) / 0x400, 0xdc00 + (c - 0x10000) % 0x400;
              Unescape(UEscape(high) + UEscape(low) + rest) == Prepend(Utf8(c).value, Unescape(rest))
  {
    hide Utf8, Unescape, Encoder.Hex4;
    if c < 0x10000 {
      Hex4Is(c);
      var h := Encoder.Hex4(c);
      UnicodeIs(h, rest);
      EscapeIs(UEscape(c) + rest, h + rest, Utf8(c).value, 5, rest);
    } else {
      var high, low := 0xd800 + (c - 0x10000) / 0x400, 0xdc00 + (c - 0x10000) % 0x400;
      Hex4Is(high);
      Hex4Is(low);
      var h, l := Encoder.Hex4(high), Encoder.Hex4(low);
      UnicodePair(h, l, rest);
      assert Joined(high, low) == c;
      EscapeIs(UEscape(high) + UEscape(low) + rest, h + [BACKSLASH, LETTER_U] + l + rest, Utf8(c).value, 11, rest);
    }
  }

  lemma UnicodeIs(h: seq<Byte>, t: seq<Byte>)
    requires |h| == 4 && FourHex(h) && IsScalar(Hex4(h))
    ensures Unicode(h + t) == Escaped(Utf8(Hex4(h)).value, 5)
  {
    hide Utf8;
    assert FourHex(h + t) && Hex4(h + t) == Hex4(h);
  }

  /** Four hexadecimal digits are read as the number they stand for. */
  lemma Hex4Is(n: nat)
    requires n < 0x10000
    ensures FourHex(Encoder.Hex4(n)) && Hex4(Encoder.Hex4(n)) == n
  {
    Encoder.Hex4Value(n);
    FourDigits(Encoder.Hex4(n));
  }

  lemma FourDigits(h: seq<Byte>)
    requires |h| == 4 && AllHex(h)
    ensures FourHex(h) && Hex4(h) == HexAcc(0, h)
  {
    var t, u, v := h[1..], h[2..], h[3..];
    assert t[0] == h[1] && t[1..] == u && u[0] == h[2] && u[1..] == v && v[0] == h[3] && v[1..] == [];
    var a := HexVal(h[0]);
    var b := a * 16 + HexVal(h[1]);
    var c := b * 16 + HexVal(h[2]);
    assert HexAcc(0, h) == HexAcc(a, t);
    assert HexAcc(a, t) == HexAcc(b, u);
    assert HexAcc(b, u) == HexAcc(c, v);
    assert HexAcc(c, v) == c * 16 + HexVal(h[3]);
  }

  lemma EscapeIs(s: seq<Byte>, t: seq<Byte>, text: seq<Byte>, used: nat, rest: seq<Byte>)
    requires s == [BACKSLASH, LETTER_U] + t && Unicode(t) == Escaped(text, used) && used <= 1 + |t| && t[used - 1..] == rest
    requires used > 0
    ensures Unescape(s) == Prepend(text, Unescape(rest))
  {
    hide Unicode;
    assert s[1..] == [LETTER_U] + t && s[1..][1..] == t;
    assert s[1 + used..] == rest;
  }

  /** A `\u` without four hexadecimal digits behind it makes the string unreadable, and so does the number of a
      second half of a surrogate pair, or that of a first half with no second half behind it. */
  lemma BrokenEscapes(t: seq<Byte>)
    requires var h := |t| >= 4 && AllHex(t[..4]);
             || !h
             || 0xdc00 <= HexAcc(0, t[..4]) <= 0xdfff
             || (0xd800 <= HexAcc(0, t[..4]) <= 0xdbff
                 && !(|t| >= 10 && t[4..6] == Ascii("\\u") && AllHex(t[6..10]) && 0xdc00 <= HexAcc(0, t[6..10]) <= 0xdfff))
    ensures Unescape(Ascii("\\u") + t) == Endless
  {
    hide Utf8, HexAcc, Hex4, Unescape, Unicode;
    if FourHex(t) { Four(t); }
    if |t| >= 10 && FourHex(t[6..]) {
      Four(t[6..]);
      assert t[6..][..4] == t[6..10] && t[4..6] == [t[4], t[5]];
    }
    UnicodeBroken(t);
    var s := Ascii("\\u") + t;
    assert s[1..][0] == LETTER_U && s[1..][1..] == t;
    BrokenEscape(s, t);
  }

  lemma UnicodeBroken(t: seq<Byte>)
    requires !FourHex(t) || 0xdc00 <= Hex4(t) <= 0xdfff
             || (0xd800 <= Hex4(t) <= 0xdbff
                 && !(|t| >= 10 && t[4] == BACKSLASH && t[5] == LETTER_U && FourHex(t[6..]) && 0xdc00 <= Hex4(t[6..]) <= 0xdfff))
    ensures Unicode(t).Bad?
  {
    hide Hex4;
  }

  lemma BrokenEscape(s: seq<Byte>, t: seq<Byte>)
    requires s == [BACKSLASH, LETTER_U] + t && Unicode(t).Bad?
    ensures Unescape(s) == Endless
  {
    hide Unicode;
    assert s[1..][0] == LETTER_U && s[1..][1..] == t;
  }

  lemma Four(t: seq<Byte>)
    requires FourHex(t)
    ensures AllHex(t[..4]) && Hex4(t) == HexAcc(0, t[..4])
  {
    hide HexAcc;
    FourDigits(t[..4]);
  }

  // ---------------------------------------------------------------- comments

  /** Where a star and a slash stand behind the first octet of `s`. */
  predicate EndsAt(s: seq<Byte>, k: nat) {
    2 <= k <= |s| && s[k - 2] as char == '*' && s[k - 1] as char == '/'
  }

  /** A block comment is read up to the first star and slash in what follows its opening slash and star, and
      is rejected if there is none; the opening star is not one of them. */
  lemma {:induction false} BlockEnd(prev: Byte, s: seq<Byte>)
    ensures var t, r := [prev] + s, AfterBlock(prev, s);
            && (r.None? <==> forall k: nat :: !EndsAt(t, k))
            && (r.Some? ==> exists k: nat :: EndsAt(t, k) && r.value == t[k..] && forall j: nat :: j < k ==> !EndsAt(t, j))
    decreases |s|
  {
    hide EndsAt;
    var t := [prev] + s;
    EndShifts(prev, s);
    if s != [] && !EndsAt(t, 2) {
      BlockEnd(s[0], s[1..]);
      assert [s[0]] + s[1..] == s;
      var r := AfterBlock(s[0], s[1..]);
      if r.Some? {
        var k: nat :| EndsAt(s, k) && r.value == s[k..] && forall j: nat :: j < k ==> !EndsAt(s, j);
        assert EndsAt(t, k + 1) && t[k + 1..] == s[k..];
        forall j: nat | j < k + 1 ensures !EndsAt(t, j) { if j > 0 { assert !EndsAt(s, j - 1); } }
      } else {
        forall k: nat ensures !EndsAt(t, k) { if k > 0 { assert !EndsAt(s, k - 1); } }
      }
    } else if s != [] {
      assert t[2..] == s[1..];
    }
  }

  lemma EndShifts(prev: Byte, s: seq<Byte>)
    ensures var t := [prev] + s;
            && (forall k: nat :: EndsAt(s, k) ==> k <= |s|) && !EndsAt(t, 0) && !EndsAt(t, 1) && (EndsAt(t, 2) <==> s != [] && prev == STAR && s[0] == SLASH)
            && (s == [] ==> forall k: nat :: !EndsAt(t, k))
            && forall k: nat :: k != 1 ==> (EndsAt(t, k + 1) <==> EndsAt(s, k))
  {
  }

  /** A line comment is read up to the first line feed. */
  lemma {:induction false} LineEnd(s: seq<Byte>)
    ensures var r := AfterLine(s);
            && (r.None? <==> 10 !in s)
            && (r.Some? ==> exists k: nat :: k < |s| && s[k] == 10 && r.value == s[k + 1..] && 10 !in s[..k])
    decreases |s|
  {
    if s != [] {
      LineEnd(s[1..]);
      if s[0] == LF {
        assert s[0] == 10 && s[0 + 1..] == s[1..] && 10 !in s[..0];
      } else if AfterLine(s[1..]).Some? {
        var t := s[1..];
        var k: nat :| k < |t| && t[k] == 10 && AfterLine(t).value == t[k + 1..] && 10 !in t[..k];
        assert s[k + 1] == 10 && t[k + 1..] == s[k + 1 + 1..] && s[..k + 1] == [s[0]] + t[..k];
      }
    }
  }

  /** A line comment is skipped before a value and before a key. */
  lemma LineCommentSkipped(text: seq<Byte>, rest: seq<Byte>, er: bool)
    requires 10 !in text
    ensures var s := Ascii("//") + text + [10] + rest;
            ParseValue(s, er) == ParseValue(rest, er) && ParseKey(s) == ParseKey(rest)
  {
    var s := Ascii("//") + text + [10] + rest;
    LineSkipped(text, rest);
    assert s[1..][0] == SLASH && s[1..][1..] == text + [10] + rest;
    CommentRead(s, rest, er);
  }

  lemma {:induction false} LineSkipped(text: seq<Byte>, rest: seq<Byte>)
    requires 10 !in text
    ensures AfterLine(text + [10] + rest) == Some(rest)
    decreases |text|
  {
    var s := text + [10] + rest;
    if text == [] {
      assert s[1..] == rest;
    } else {
      LineSkipped(text[1..], rest);
      assert s[1..] == text[1..] + [10] + rest;
    }
  }

  /** A block comment is skipped before a value and before a key; it may hold stars and slashes, but the two
      do not meet before its end. */
  lemma BlockCommentSkipped(text: seq<Byte>, rest: seq<Byte>, er: bool)
    requires forall k: nat :: !EndsAt(text + Ascii("*"), k)
    ensures var s := Ascii("/*") + text + Ascii("*/") + rest;
            ParseValue(s, er) == ParseValue(rest, er) && ParseKey(s) == ParseKey(rest)
  {
    var s, body := Ascii("/*") + text + Ascii("*/") + rest, text + Ascii("*");
    assert s[1..][0] == STAR && s[1..][1..] == body + Ascii("/") + rest;
    var t := body + Ascii("/") + rest;
    BlockSkipped(body, rest);
    assert t == [s[1..][1]] + s[1..][2..];
    CommentRead(s, rest, er);
  }

  lemma {:induction false} BlockSkipped(body: seq<Byte>, rest: seq<Byte>)
    requires body != [] && body[|body| - 1] as char == '*' && forall k: nat :: !EndsAt(body, k)
    ensures var t := body + Ascii("/") + rest; AfterBlock(t[0], t[1..]) == Some(rest)
    decreases |body|
  {
    var t := body + Ascii("/") + rest;
    if |body| == 1 {
      assert t[1..][1..] == rest;
    } else {
      var b := body[1..];
      forall k: nat ensures !EndsAt(b, k) { assert !EndsAt(body, k + 1); }
      BlockSkipped(b, rest);
      assert !EndsAt(body, 2);
      var u := b + Ascii("/") + rest;
      assert t[1..] == u && u[0] == b[0];
    }
  }

  lemma CommentRead(s: seq<Byte>, rest: seq<Byte>, er: bool)
    requires s != [] && s[0] as char == '/' && AfterComment(s[1..]) == Some(rest)
    ensures ParseValue(s, er) == ParseValue(rest, er) && ParseKey(s) == ParseKey(rest)
  {
    hide AfterComment;
  }

  // ---------------------------------------------------------------- numbers

  ghost predicate AllInBase(s: seq<Byte>, base: nat) {
    forall i :: 0 <= i < |s| ==> IsHex(s[i]) && HexVal(s[i]) < base
  }

  /** The number that digits stand for: the last one counts once, each one before it `base` times more. */
  ghost function ValueOf(s: seq<Byte>, base: nat): (n: nat)
    requires AllInBase(s, base)
    decreases |s|
  {
    if s == [] then 0 else ValueOf(s[..|s| - 1], base) * base + HexVal(s[|s| - 1])
  }

  /** No digit of the base follows. */
  ghost predicate Ends(rest: seq<Byte>, base: nat) {
    rest == [] || !(IsHex(rest[0]) && HexVal(rest[0]) < base)
  }

  lemma {:induction false} RunValue(done: seq<Byte>, s: seq<Byte>, rest: seq<Byte>, base: nat)
    requires AllInBase(done + s, base) && AllInBase(done, base) && Ends(rest, base)
    ensures Run(ValueOf(done, base), s + rest, base) == Digits(ValueOf(done + s, base), rest)
    decreases |s|
  {
    if s == [] {
      assert s + rest == rest && done + s == done;
    } else {
      var more := done + [s[0]];
      assert more + s[1..] == done + s && more[..|more| - 1] == done;
      assert (done + s)[|done|] == s[0];
      assert (s + rest)[1..] == s[1..] + rest;
      RunValue(more, s[1..], rest, base);
    }
  }

  /** Numbers as `strtoll` reads them: decimal, with a leading zero octal, with a leading zero and an x
      hexadecimal. */
  lemma NumbersRead(digits: seq<Byte>, rest: seq<Byte>)
    requires digits != []
    ensures AllInBase(digits, 10) && digits[0] as char != '0' && Ends(rest, 10) ==>
              Magnitude(digits + rest) == Some(Digits(ValueOf(digits, 10), rest))
    ensures AllInBase(digits, 8) && Ends(rest, 8) ==>
              Magnitude(Ascii("0") + digits + rest) == Some(Digits(ValueOf(digits, 8), rest))
    ensures AllInBase(digits, 16) && Ends(rest, 16) ==>
              && Magnitude(Ascii("0x") + digits + rest) == Some(Digits(ValueOf(digits, 16), rest))
              && Magnitude(Ascii("0X") + digits + rest) == Some(Digits(ValueOf(digits, 16), rest))
  {
    if AllInBase(digits, 10) && digits[0] as char != '0' && Ends(rest, 10) { DecimalRead(digits, rest); }
    if AllInBase(digits, 8) && Ends(rest, 8) { OctalRead(digits, rest); }
    if AllInBase(digits, 16) && Ends(rest, 16) { HexRead(digits, rest); }
  }

  lemma FirstDigit(digits: seq<Byte>, base: nat)
    requires digits != [] && AllInBase(digits, base)
    ensures ValueOf(digits[..1], base) == HexVal(digits[0])
  {
    assert digits[..1][..0] == [];
  }

  lemma NoDigits(digits: seq<Byte>, base: nat)
    requires digits == []
    ensures ValueOf(digits, base) == 0
  {
  }

  lemma DecimalRead(digits: seq<Byte>, rest: seq<Byte>)
    requires digits != [] && AllInBase(digits, 10) && digits[0] as char != '0' && Ends(rest, 10)
    ensures Magnitude(digits + rest) == Some(Digits(ValueOf(digits, 10), rest))
  {
    hide Run, ValueOf, Magnitude;
    var s, first := digits + rest, digits[..1];
    assert first + digits[1..] == digits && s[1..] == digits[1..] + rest && s[0] == digits[0];
    FirstDigit(digits, 10);
    RunValue(first, digits[1..], rest, 10);
    DecimalStart(s);
  }

  lemma DecimalStart(s: seq<Byte>)
    requires s != [] && s[0] as char != '0' && IsHex(s[0]) && HexVal(s[0]) < 10
    ensures Magnitude(s) == Some(Run(HexVal(s[0]), s[1..], 10))
  {
    hide Run;
  }

  lemma OctalRead(digits: seq<Byte>, rest: seq<Byte>)
    requires digits != [] && AllInBase(digits, 8) && Ends(rest, 8)
    ensures Magnitude(Ascii("0") + digits + rest) == Some(Digits(ValueOf(digits, 8), rest))
  {
    hide Run, ValueOf;
    var s, none := Ascii("0") + digits + rest, digits[..0];
    assert s[1..] == digits + rest && none + digits == digits && s[0] == 48 && s[1] == digits[0];
    NoDigits(none, 8);
    RunValue(none, digits, rest, 8);
  }

  lemma HexRead(digits: seq<Byte>, rest: seq<Byte>)
    requires digits != [] && AllInBase(digits, 16) && Ends(rest, 16)
    ensures Magnitude(Ascii("0x") + digits + rest) == Some(Digits(ValueOf(digits, 16), rest))
    ensures Magnitude(Ascii("0X") + digits + rest) == Some(Digits(ValueOf(digits, 16), rest))
  {
    hide Run, ValueOf;
    var none := digits[..0];
    assert none + digits == digits;
    NoDigits(none, 16);
    RunValue(none, digits, rest, 16);
    HexPrefix(Ascii("0x"), digits, rest);
    HexPrefix(Ascii("0X"), digits, rest);
  }

  lemma HexPrefix(x: seq<Byte>, digits: seq<Byte>, rest: seq<Byte>)
    requires |x| == 2 && x[0] == 48 && (x[1] == 120 || x[1] == 88) && digits != [] && IsHex(digits[0])
    ensures Magnitude(x + digits + rest) == Some(Run(0, digits + rest, 16))
  {
    hide Run;
    var s := x + digits + rest;
    assert s[0] == x[0] && s[1] == x[1] && s[2] == digits[0] && s[2..] == digits + rest;
  }

  /** A decimal number is read as what its digits stand for if that is in the range of 64 bits with a sign, and
      rejected if not, or if `errno` was left at ERANGE before. */
  lemma NumberRange(neg: bool, digits: seq<Byte>, rest: seq<Byte>, er: bool)
    requires digits != [] && AllInBase(digits, 10) && digits[0] as char != '0' && Ends(rest, 10)
    requires rest == [] || rest[0] !in Ascii(".eE")
    ensures var n := if neg then -1 * ValueOf(digits, 10) else ValueOf(digits, 10);
            ParseNumber((if neg then Ascii("-") else []) + digits + rest, er) ==
            if !er && -9223372036854775808 <= n <= 9223372036854775807 then Parsed(Some(Int(n)), rest) else Rejected
  {
    hide Magnitude, ValueOf, ParseNumber, Ascii;
    OneCharacter('-');
    StopsAre();
    var sign := if neg then [MINUS] else [];
    var s := sign + digits + rest;
    DecimalRead(digits, rest);
    if neg { assert s[1..] == digits + rest; } else { assert s == digits + rest && s[0] == digits[0]; }
    NumberIs(s, neg, ValueOf(digits, 10), rest, er);
  }

  lemma StopsAre()
    ensures Ascii(".eE") == [46, 101, 69]
  {
  }

  lemma NumberIs(s: seq<Byte>, neg: bool, m: nat, rest: seq<Byte>, er: bool)
    requires s != [] && (s[0] == MINUS <==> neg) && Magnitude(if neg then s[1..] else s) == Some(Digits(m, rest))
    requires rest == [] || rest[0] !in [46, 101, 69]
    ensures var n := if neg then -1 * m else m;
            ParseNumber(s, er) == if !er && -9223372036854775808 <= n <= 9223372036854775807 then Parsed(Some(Int(n)), rest) else Rejected
  {
    hide Magnitude;
  }
}
