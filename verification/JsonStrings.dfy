/** JSON strings: escapes as section 7 of RFC 8259 defines them, and their removal in place. */
module JsonStrings {
  import opened Octets

  const QUOTE: Byte := 34
  const BACKSLASH: Byte := 92
  const LETTER_U: Byte := 117

  // ---------------------------------------------------------------- UTF-8

  predicate IsSurrogate(c: nat) {
    0xd800 <= c < 0xe000
  }

  /** A Unicode scalar value. */
  predicate IsScalar(c: nat) {
    c < 0x110000 && !IsSurrogate(c)
  }

  /** `unicode_to_utf8` */
  function Utf8(c: nat): (r: Option<seq<Byte>>)
    ensures r.Some? <==> IsScalar(c)
    ensures r.Some? ==> 1 <= |r.value| <= (if c < 0x10000 then 3 else 4)
    ensures r.Some? && c != 0 ==> 0 !in r.value
  {
    if c < 0x80 then Some([c])
    else if c < 0x800 then Some([192 + c / 64, 128 + c % 64])
    else if IsSurrogate(c) then None
    else if c < 0x10000 then Some([224 + c / 4096, 128 + c / 64 % 64, 128 + c % 64])
    else if c < 0x110000 then Some([240 + c / 262144, 128 + c / 4096 % 64, 128 + c / 64 % 64, 128 + c % 64])
    else None
  }

  /** The bits of an octet below `m`. */
  function Low(b: int, m: nat): (r: nat)
    requires m > 0
  {
    b % m
  }

  /** What section 3 of RFC 3629 says the octets stand for: shortest forms of scalar values only. */
  function Utf8Decode(s: seq<Byte>): (r: Option<nat>) {
    if |s| == 1 && s[0] < 0x80 then Some(s[0])
    else if |s| == 2 && 0xc0 <= s[0] < 0xe0 && IsTrail(s[1]) then Scalar(Low(s[0], 32) * 64 + Low(s[1], 64), 0x80)
    else if |s| == 3 && 0xe0 <= s[0] < 0xf0 && IsTrail(s[1]) && IsTrail(s[2]) then
      Scalar((Low(s[0], 16) * 64 + Low(s[1], 64)) * 64 + Low(s[2], 64), 0x800)
    else if |s| == 4 && 0xf0 <= s[0] < 0xf8 && IsTrail(s[1]) && IsTrail(s[2]) && IsTrail(s[3]) then
      Scalar(((Low(s[0], 8) * 64 + Low(s[1], 64)) * 64 + Low(s[2], 64)) * 64 + Low(s[3], 64), 0x10000)
    else None
  }

  predicate IsTrail(b: Byte) {
    0x80 <= b < 0xc0
  }

  function Scalar(c: nat, least: nat): (r: Option<nat>) {
    if least <= c && IsScalar(c) then Some(c) else None
  }

  lemma SixBits(c: nat)
    ensures c == c / 64 * 64 + c % 64
    ensures c / 64 == c / 4096 * 64 + c / 64 % 64
    ensures c / 4096 == c / 262144 * 64 + c / 4096 % 64
  {
  }

  lemma LeadBits(c: nat)
    ensures c < 0x800 ==> Low(192 + c / 64, 32) == c / 64
    ensures c < 0x10000 ==> Low(224 + c / 4096, 16) == c / 4096
    ensures c < 0x110000 ==> Low(240 + c / 262144, 8) == c / 262144
  {
  }

  lemma TrailBits(n: nat)
    ensures Low(128 + n % 64, 64) == n % 64
  {
  }

  /** The encoder writes the one UTF-8 form of every scalar value. */
  lemma Utf8RoundTrip(c: nat)
    requires IsScalar(c)
    ensures Utf8Decode(Utf8(c).value) == Some(c)
  {
    hide Low;
    SixBits(c);
    LeadBits(c);
    TrailBits(c);
    TrailBits(c / 64);
    TrailBits(c / 4096);
  }

  /** A text of octets stands for a character only if the encoder writes it for that character. */
  lemma Utf8Unique(s: seq<Byte>)
    requires Utf8Decode(s).Some?
    ensures Utf8(Utf8Decode(s).value) == Some(s)
  {
    if |s| == 1 {
      assert s == [s[0]];
    } else {
      hide Utf8;
      LeadLow(s[0]);
      TrailLow(s[1]);
      if |s| == 2 {
        assert s == [s[0], s[1]];
        Utf8Two(s[0], s[1]);
      } else {
        Longer(s);
      }
    }
  }

  lemma Longer(s: seq<Byte>)
    requires Utf8Decode(s).Some? && (|s| == 3 || |s| == 4)
    ensures Utf8(Utf8Decode(s).value) == Some(s)
  {
    hide Utf8, Low;
    LeadLow(s[0]);
    TrailLow(s[1]);
    TrailLow(s[2]);
    if |s| == 3 {
      assert s == [s[0], s[1], s[2]];
      Utf8Three(s[0], s[1], s[2]);
    } else {
      assert s == [s[0], s[1], s[2], s[3]];
      TrailLow(s[3]);
      Utf8Four(s[0], s[1], s[2], s[3]);
    }
  }

  lemma Utf8Two(a: Byte, b: Byte)
    requires 0xc0 <= a < 0xe0 && IsTrail(b)
    ensures var c := (a - 192) * 64 + (b - 128); c >= 0x80 ==> Utf8(c) == Some([a, b])
  {
    Groups(0, 0, a - 192, b - 128);
  }

  lemma Utf8Three(a: Byte, b: Byte, d: Byte)
    requires 0xe0 <= a < 0xf0 && IsTrail(b) && IsTrail(d)
    ensures var c := ((a - 224) * 64 + (b - 128)) * 64 + (d - 128);
            c >= 0x800 && IsScalar(c) ==> Utf8(c) == Some([a, b, d])
  {
    Groups(0, a - 224, b - 128, d - 128);
  }

  lemma Utf8Four(a: Byte, b: Byte, d: Byte, e: Byte)
    requires 0xf0 <= a < 0xf8 && IsTrail(b) && IsTrail(d) && IsTrail(e)
    ensures var c := (((a - 240) * 64 + (b - 128)) * 64 + (d - 128)) * 64 + (e - 128);
            c >= 0x10000 && IsScalar(c) ==> Utf8(c) == Some([a, b, d, e])
  {
    Groups(a - 240, b - 128, d - 128, e - 128);
  }

  /** A number put together from groups of six bits is taken apart into them again. */
  lemma Groups(a: nat, b: nat, d: nat, e: nat)
    requires b < 64 && d < 64 && e < 64
    ensures var c := ((a * 64 + b) * 64 + d) * 64 + e;
            && c % 64 == e && c / 64 == (a * 64 + b) * 64 + d && c / 64 % 64 == d
            && c / 4096 == a * 64 + b && c / 4096 % 64 == b && c / 262144 == a
  {
    var m := a * 64 + b;
    var n := m * 64 + d;
    SixAppended(a, b);
    SixAppended(m, d);
    SixAppended(n, e);
    SixBits(n * 64 + e);
  }

  lemma TrailLow(b: Byte)
    requires IsTrail(b)
    ensures Low(b, 64) == b - 128 < 64
  {
  }

  lemma LeadLow(b: Byte)
    ensures 0xc0 <= b < 0xe0 ==> Low(b, 32) == b - 192
    ensures 0xe0 <= b < 0xf0 ==> Low(b, 16) == b - 224
    ensures 0xf0 <= b < 0xf8 ==> Low(b, 8) == b - 240
  {
  }

  lemma SixAppended(a: nat, b: nat)
    requires b < 64
    ensures (a * 64 + b) / 64 == a && (a * 64 + b) % 64 == b
  {
  }

  // ---------------------------------------------------------------- escapes

  predicate FourHex(s: seq<Byte>) {
    |s| >= 4 && IsHex(s[0]) && IsHex(s[1]) && IsHex(s[2]) && IsHex(s[3])
  }

  function Hex4(s: seq<Byte>): (v: nat)
    requires FourHex(s)
    ensures v < 0x10000
  {
    HexVal(s[0]) * 4096 + HexVal(s[1]) * 256 + HexVal(s[2]) * 16 + HexVal(s[3])
  }

  predicate IsHigh(c: nat) {
    0xd800 <= c < 0xdc00
  }

  predicate IsLow(c: nat) {
    0xdc00 <= c < 0xe000
  }

  function Joined(high: nat, low: nat): (r: nat)
    requires IsHigh(high) && IsLow(low)
  {
    0x10000 + (high - 0xd800) * 1024 + (low - 0xdc00)
  }

  /** What a backslash and the text behind it stand for, and how much of that text belongs to it. */
  datatype Escaped = Bad | Escaped(text: seq<Byte>, used: nat)

  /** The escape `\u` with `t` behind it. */
  function Unicode(t: seq<Byte>): (e: Escaped)
    ensures e.Escaped? ==> e.used <= 1 + |t| && 1 <= |e.text| < e.used
  {
    if !FourHex(t) then Bad
    else if !IsHigh(Hex4(t)) then
      var u := Utf8(Hex4(t));
      if u.None? then Bad else Escaped(u.value, 5)
    else if |t| < 6 || t[4] != BACKSLASH || t[5] != LETTER_U || !FourHex(t[6..]) || !IsLow(Hex4(t[6..])) then Bad
    else Escaped(Utf8(Joined(Hex4(t), Hex4(t[6..]))).value, 11)
  }

  /** The octet a one-letter escape stands for. */
  function Short(c: Byte): (r: Option<Byte>) {
    if c == BACKSLASH || c == 47 || c == QUOTE then Some(c)
    else if c == 98 then Some(8)
    else if c == 102 then Some(12)
    else if c == 110 then Some(10)
    else if c == 114 then Some(13)
    else if c == 116 then Some(9)
    else None
  }

  /** A backslash that starts no escape is left alone. */
  function Escape(t: seq<Byte>): (e: Escaped)
    ensures e.Escaped? ==> e.used <= |t| && 1 <= |e.text| <= 1 + e.used
  {
    if t == [] then Escaped([BACKSLASH], 0)
    else if Short(t[0]).Some? then Escaped([Short(t[0]).value], 1)
    else if t[0] == LETTER_U then Unicode(t[1..])
    else Escaped([BACKSLASH], 0)
  }

  /** A string's text and what follows its closing quote. */
  datatype Scanned = Endless | Scanned(text: seq<Byte>, rest: seq<Byte>)

  function Prepend(a: seq<Byte>, r: Scanned): (res: Scanned) {
    if r.Endless? then r else Scanned(a + r.text, r.rest)
  }

  /** What `unescape_string` makes of the text behind an opening quote. */
  function Unescape(s: seq<Byte>): (r: Scanned)
    ensures r.Scanned? ==> |r.rest| < |s|
    decreases |s|
  {
    if s == [] then Endless
    else if s[0] == QUOTE then Scanned([], s[1..])
    else if s[0] == BACKSLASH then
      var e := Escape(s[1..]);
      if e.Bad? then Endless else Prepend(e.text, Unescape(s[1 + e.used..]))
    else Prepend([s[0]], Unescape(s[1..]))
  }

  // ---------------------------------------------------------------- texts of a string

  /** One way to write a part of a string: an octet as it is, a one-letter escape, a `\u` escape, or
      two of them that form a surrogate pair. */
  datatype Glyph = Raw(c: Byte) | Letter(c: Byte) | Code(hex: seq<Byte>) | Pair(high: seq<Byte>, low: seq<Byte>)

  ghost predicate ValidGlyph(g: Glyph) {
    match g
    case Raw(c) => 32 <= c && c != QUOTE && c != BACKSLASH
    case Letter(c) => Short(c).Some?
    case Code(h) => |h| == 4 && FourHex(h) && Hex4(h) != 0 && IsScalar(Hex4(h))
    case Pair(h, l) => |h| == 4 && FourHex(h) && IsHigh(Hex4(h)) && |l| == 4 && FourHex(l) && IsLow(Hex4(l))
  }

  ghost function GlyphText(g: Glyph): (r: seq<Byte>) {
    match g
    case Raw(c) => [c]
    case Letter(c) => [BACKSLASH, c]
    case Code(h) => [BACKSLASH, LETTER_U] + h
    case Pair(h, l) => [BACKSLASH, LETTER_U] + h + [BACKSLASH, LETTER_U] + l
  }

  /** The octets a glyph stands for, in UTF-8. */
  ghost function GlyphValue(g: Glyph): (r: seq<Byte>)
    requires ValidGlyph(g)
  {
    match g
    case Raw(c) => [c]
    case Letter(c) => [Short(c).value]
    case Code(h) => Utf8(Hex4(h)).value
    case Pair(h, l) => Utf8(Joined(Hex4(h), Hex4(l))).value
  }

  ghost predicate ValidGlyphs(gs: seq<Glyph>) {
    forall g :: g in gs ==> ValidGlyph(g)
  }

  ghost function Text(gs: seq<Glyph>): (r: seq<Byte>)
    decreases |gs|
  {
    if gs == [] then [] else GlyphText(gs[0]) + Text(gs[1..])
  }

  ghost function Meaning(gs: seq<Glyph>): (r: seq<Byte>)
    requires ValidGlyphs(gs)
    decreases |gs|
  {
    if gs == [] then [] else GlyphValue(gs[0]) + Meaning(gs[1..])
  }

  lemma UnicodeCode(h: seq<Byte>, t: seq<Byte>)
    requires ValidGlyph(Code(h))
    ensures Unicode(h + t) == Escaped(GlyphValue(Code(h)), 5)
  {
    assert FourHex(h + t) && Hex4(h + t) == Hex4(h);
  }

  lemma UnicodePair(h: seq<Byte>, l: seq<Byte>, t: seq<Byte>)
    requires ValidGlyph(Pair(h, l))
    ensures Unicode(h + [BACKSLASH, LETTER_U] + l + t) == Escaped(GlyphValue(Pair(h, l)), 11)
  {
    hide Utf8;
    var u := h + [BACKSLASH, LETTER_U] + l + t;
    assert FourHex(u) && Hex4(u) == Hex4(h);
    assert u[6..] == l + t;
    assert FourHex(u[6..]) && Hex4(u[6..]) == Hex4(l);
  }

  /** The text in front of `t` is one escape, and `Escape` sees no further. */
  lemma EscapeGlyph(g: Glyph, t: seq<Byte>)
    requires ValidGlyph(g) && !g.Raw?
    ensures var s := GlyphText(g) + t;
            && s[0] == BACKSLASH && Escape(s[1..]) == Escaped(GlyphValue(g), |GlyphText(g)| - 1)
  {
    hide Unicode;
    var s := GlyphText(g) + t;
    if g.Letter? {
      assert s[1..][0] == g.c;
    } else {
      assert s[1..][0] == LETTER_U;
      EscapeUnicode(s[1..]);
      if g.Code? {
        UnicodeCode(g.hex, t);
        assert s[1..][1..] == g.hex + t;
      } else {
        UnicodePair(g.high, g.low, t);
        assert s[1..][1..] == g.high + [BACKSLASH, LETTER_U] + g.low + t;
      }
    }
  }

  lemma EscapeUnicode(t: seq<Byte>)
    requires t != [] && t[0] == LETTER_U
    ensures Escape(t) == Unicode(t[1..])
  {
  }

  lemma UnescapeGlyph(g: Glyph, t: seq<Byte>)
    requires ValidGlyph(g)
    ensures Unescape(GlyphText(g) + t) == Prepend(GlyphValue(g), Unescape(t))
  {
    var s := GlyphText(g) + t;
    if g.Raw? {
      assert s[1..] == t;
    } else {
      EscapeGlyph(g, t);
      assert s[1 + (|GlyphText(g)| - 1)..] == t;
    }
  }

  /** Every text of a string is read as what it stands for. */
  lemma {:induction false} UnescapeText(gs: seq<Glyph>, rest: seq<Byte>)
    requires ValidGlyphs(gs)
    ensures Unescape(Text(gs) + ([QUOTE] + rest)) == Scanned(Meaning(gs), rest)
    decreases |gs|
  {
    hide GlyphText, GlyphValue, ValidGlyph;
    var tail := [QUOTE] + rest;
    if gs == [] {
      assert Text(gs) + tail == tail && tail[1..] == rest;
    } else {
      UnescapeText(gs[1..], rest);
      UnescapeGlyph(gs[0], Text(gs[1..]) + tail);
      assert GlyphText(gs[0]) + (Text(gs[1..]) + tail) == Text(gs) + tail;
    }
  }

  /** A text for every string without NUL: octets below 32, quotes and backslashes are escaped. */
  ghost function Spell(text: seq<Byte>): (r: seq<Glyph>)
    requires 0 !in text
    decreases |text|
  {
    if text == [] then [] else [SpellOctet(text[0])] + Spell(text[1..])
  }

  function SpellOctet(c: Byte): (r: Glyph) {
    if c == QUOTE || c == BACKSLASH then Letter(c)
    else if c < 32 then Code([48, 48, 48 + c / 16, if c % 16 < 10 then 48 + c % 16 else 87 + c % 16])
    else Raw(c)
  }

  lemma SpellOctetMeans(c: Byte)
    requires c != 0
    ensures ValidGlyph(SpellOctet(c)) && GlyphValue(SpellOctet(c)) == [c]
  {
  }

  lemma {:induction false} SpellMeans(text: seq<Byte>)
    requires 0 !in text
    ensures ValidGlyphs(Spell(text)) && Meaning(Spell(text)) == text
    decreases |text|
  {
    if text != [] {
      hide ValidGlyph, SpellOctet, GlyphValue;
      SpellOctetMeans(text[0]);
      SpellMeans(text[1..]);
      assert Spell(text)[1..] == Spell(text[1..]);
      assert text == [text[0]] + text[1..];
    }
  }

  // ---------------------------------------------------------------- in place

  /** Writes `text` at `d`. */
  method Write(buf: array<Byte>, d: nat, text: seq<Byte>)
    requires d + |text| <= buf.Length
    modifies buf
    ensures buf[..] == Spliced(old(buf[..]), d, text)
  {
    forall i | 0 <= i < |text| { buf[d + i] := text[i]; }
  }

  function Spliced(b: seq<Byte>, d: nat, text: seq<Byte>): (c: seq<Byte>)
    requires d + |text| <= |b|
    ensures |c| == |b|
  {
    b[..d] + text + b[d + |text|..]
  }

  /** Octets have been written at `d` and read up to `q`: the text made so far has grown by them, and
      nothing unread has changed. */
  ghost predicate Progress(b0: seq<Byte>, b: seq<Byte>, s: nat, d: nat, p: nat, n: nat) {
    && s <= d <= p <= n < |b0| == |b| && b[..s] == b0[..s] && b[p..] == b0[p..]
    && Unescape(b0[s..n]) == Prepend(b[s..d], Unescape(b0[p..n]))
  }

  lemma ProgressStep(b0: seq<Byte>, b: seq<Byte>, c: seq<Byte>, s: nat, d: nat, p: nat, n: nat, text: seq<Byte>, q: nat)
    requires Progress(b0, b, s, d, p, n) && p <= q <= n && d + |text| <= q
    requires c == Spliced(b, d, text)
    requires Unescape(b0[p..n]) == Prepend(text, Unescape(b0[q..n]))
    ensures Progress(b0, c, s, d + |text|, q, n)
  {
    hide Unescape;
    assert c[s..d + |text|] == b[s..d] + text;
    assert c[q..] == b[q..] && b[q..] == b[p..][q - p..] && b0[q..] == b0[p..][q - p..];
    assert c[..s] == b[..s];
    var r := Unescape(b0[q..n]);
    if r.Scanned? { assert b[s..d] + (text + r.text) == b[s..d] + text + r.text; }
  }

  /** `unescape_string` with the UTF-8 encoder on the text from `s` to the NUL at `n`: the string ends up
      from `s` to the NUL at `end`, and reading goes on at `next`.  Nothing is written before `s`, and
      nothing that has not been read. */
  method UnescapeString(buf: array<Byte>, s: nat, n: nat) returns (ok: bool, end: nat, next: nat)
    requires s <= n < buf.Length && buf[n] == 0 && 0 !in buf[s..n]
    modifies buf
    ensures buf[..s] == old(buf[..s])
    ensures ok <==> Unescape(old(buf[s..n])).Scanned?
    ensures ok ==> var r := Unescape(old(buf[s..n]));
                   && s <= end < next <= n && buf[s..end] == r.text && buf[end] == 0
                   && r.rest == old(buf[next..n]) && buf[next..] == old(buf[next..])
  {
    hide Progress, Unescape;
    ghost var b0 := buf[..];
    var p, d := s, s;
    ok, end, next := false, s, s;
    ProgressStart(b0, s, n);
    while p < n
      invariant s <= d <= p <= n && Progress(b0, buf[..], s, d, p, n)
      decreases n - p
    {
      ProgressMeans(b0, buf[..], s, d, p, n);
      if buf[p] == QUOTE {
        Closing(b0, buf[..], s, d, p, n);
        buf[d] := 0;
        assert buf[p + 1..] == old(buf[p + 1..]) && buf[s..d] == buf[..][s..d];
        return true, d, p + 1;
      }
      var good;
      good, d, p := Move(buf, b0, s, d, p, n);
      if !good { return; }
    }
    ProgressMeans(b0, buf[..], s, d, p, n);
    Unclosed(b0, n);
  }

  /** One round of the loop, away from the closing quote. */
  method Move(buf: array<Byte>, ghost b0: seq<Byte>, s: nat, d: nat, p: nat, n: nat) returns (ok: bool, d': nat, p': nat)
    requires s <= d <= p < n < buf.Length && Progress(b0, buf[..], s, d, p, n) && buf[p] != QUOTE
    modifies buf
    ensures buf[..s] == old(buf[..s])
    ensures if ok then s <= d' <= p' <= n && p < p' && Progress(b0, buf[..], s, d', p', n)
            else Unescape(b0[s..n]).Endless?
  {
    hide Progress, Unescape, Escape, Prepend, Spliced;
    ghost var b := buf[..];
    ProgressMeans(b0, b, s, d, p, n);
    Round(b0, p, n);
    var e := Escaped([buf[p]], 0);
    if buf[p] == BACKSLASH {
      SameRest(b0, b, p, n);
      e := Escape(buf[p + 1..n]);
      if e.Bad? {
        ProgressFails(b0, b, s, d, p, n);
        return false, d, p;
      }
    }
    ProgressStep(b0, b, Spliced(b, d, e.text), s, d, p, n, e.text, p + 1 + e.used);
    Write(buf, d, e.text);
    WriteKeeps(b, s, d, e.text);
    assert buf[..s] == buf[..][..s] && b[..s] == old(buf[..s]);
    ok, d', p' := true, d + |e.text|, p + 1 + e.used;
  }

  lemma WriteKeeps(b: seq<Byte>, s: nat, d: nat, text: seq<Byte>)
    requires s <= d && d + |text| <= |b|
    ensures Spliced(b, d, text)[..s] == b[..s]
  {
  }

  lemma SameRest(b0: seq<Byte>, b: seq<Byte>, p: nat, n: nat)
    requires p < n <= |b0| == |b| && b[p..] == b0[p..]
    ensures b[p + 1..n] == b0[p + 1..n]
  {
    assert b[p..][1..n - p] == b0[p..][1..n - p];
  }

  lemma ProgressFails(b0: seq<Byte>, b: seq<Byte>, s: nat, d: nat, p: nat, n: nat)
    requires Progress(b0, b, s, d, p, n) && Unescape(b0[p..n]).Endless?
    ensures Unescape(b0[s..n]).Endless?
  {
  }

  lemma ProgressStart(b: seq<Byte>, s: nat, n: nat)
    requires s <= n < |b|
    ensures Progress(b, b, s, s, s, n)
  {
    var r := Unescape(b[s..n]);
    assert r.Scanned? ==> [] + r.text == r.text;
  }

  lemma ProgressMeans(b0: seq<Byte>, b: seq<Byte>, s: nat, d: nat, p: nat, n: nat)
    requires Progress(b0, b, s, d, p, n)
    ensures s <= d <= p <= n < |b0| == |b| && b[..s] == b0[..s] && b[p..] == b0[p..]
    ensures p < n ==> b[p] == b0[p]
    ensures Unescape(b0[s..n]) == Prepend(b[s..d], Unescape(b0[p..n]))
  {
    if p < n { assert b[p..][0] == b0[p..][0]; }
  }

  lemma Unclosed(b0: seq<Byte>, n: nat)
    requires n <= |b0|
    ensures Unescape(b0[n..n]).Endless?
  {
  }

  lemma Closing(b0: seq<Byte>, b: seq<Byte>, s: nat, d: nat, p: nat, n: nat)
    requires Progress(b0, b, s, d, p, n) && p < n && b[p] == QUOTE
    ensures Unescape(b0[s..n]) == Scanned(b[s..d], b0[p + 1..n])
    ensures b[p + 1..] == b0[p + 1..]
  {
    ProgressMeans(b0, b, s, d, p, n);
    assert b0[p..n][0] == QUOTE && b0[p..n][1..] == b0[p + 1..n];
    assert b[s..d] + [] == b[s..d];
    assert b[p..][1..] == b[p + 1..] && b0[p..][1..] == b0[p + 1..];
  }

  lemma Round(b0: seq<Byte>, p: nat, n: nat)
    requires p < n <= |b0| && b0[p] != QUOTE
    ensures b0[p] != BACKSLASH ==> Unescape(b0[p..n]) == Prepend([b0[p]], Unescape(b0[p + 1..n]))
    ensures b0[p] == BACKSLASH ==>
              var e := Escape(b0[p + 1..n]);
              if e.Bad? then Unescape(b0[p..n]).Endless?
              else Unescape(b0[p..n]) == Prepend(e.text, Unescape(b0[p + 1 + e.used..n]))
  {
    hide Escape, Unescape;
    var t := b0[p..n];
    UnescapeRound(t);
    Tail(b0, p, n, 1);
    if b0[p] == BACKSLASH && Escape(t[1..]).Escaped? {
      Tail(b0, p, n, 1 + Escape(t[1..]).used);
    }
  }

  lemma Tail(b: seq<Byte>, p: nat, n: nat, k: nat)
    requires p <= n <= |b| && k <= n - p
    ensures b[p..n][k..] == b[p + k..n]
  {
  }

  lemma UnescapeRound(t: seq<Byte>)
    requires t != [] && t[0] != QUOTE
    ensures t[0] != BACKSLASH ==> Unescape(t) == Prepend([t[0]], Unescape(t[1..]))
    ensures t[0] == BACKSLASH ==>
              var e := Escape(t[1..]);
              if e.Bad? then Unescape(t).Endless? else Unescape(t) == Prepend(e.text, Unescape(t[1 + e.used..]))
  {
    hide Escape;
  }
}
