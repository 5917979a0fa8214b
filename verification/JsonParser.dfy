/** The parser `nx_json_parse` as a function of the text that is left to read. */
module JsonParser {
  import opened Octets
  import opened JsonStrings

  /** A tree without floating-point numbers. */
  datatype Json =
    | Null | Bool(b: bool) | Int(n: int) | Str(text: seq<Byte>)
    | Arr(items: seq<Json>) | Obj(members: seq<Member>)

  datatype Member = Member(key: seq<Byte>, value: Json)

  /** A value, or none at a closing bracket, and the text behind it; `Float` where a floating-point
      number starts, which is beyond this model. */
  datatype Parsed = Rejected | Float | Parsed(value: Option<Json>, rest: seq<Byte>)

  predicate IsSpace(c: Byte) {
    c == 32 || c == 9 || c == 10 || c == 13
  }

  const COMMA: Byte := 44
  const COLON: Byte := 58
  const SLASH: Byte := 47
  const STAR: Byte := 42
  const LBRACE: Byte := 123
  const RBRACE: Byte := 125
  const LBRACKET: Byte := 91
  const RBRACKET: Byte := 93
  const MINUS: Byte := 45

  /** "true", "false" and "null" */
  const TRUE: seq<Byte> := [116, 114, 117, 101]
  const FALSE: seq<Byte> := [102, 97, 108, 115, 101]
  const NULL: seq<Byte> := [110, 117, 108, 108]

  // ---------------------------------------------------------------- comments

  /** The text behind the next line end. */
  function AfterLine(s: seq<Byte>): (r: Option<seq<Byte>>)
    ensures r.Some? ==> |r.value| < |s|
    decreases |s|
  {
    if s == [] then None else if s[0] == LF then Some(s[1..]) else AfterLine(s[1..])
  }

  /** The text behind the slash that follows a star; `prev` is the octet before `s`. */
  function AfterBlock(prev: Byte, s: seq<Byte>): (r: Option<seq<Byte>>)
    ensures r.Some? ==> |r.value| < |s|
    decreases |s|
  {
    if s == [] then None
    else if s[0] == SLASH && prev == STAR then Some(s[1..])
    else AfterBlock(s[0], s[1..])
  }

  /** The text behind a comment; its first slash is gone already. */
  function AfterComment(s: seq<Byte>): (r: Option<seq<Byte>>)
    ensures r.Some? ==> |r.value| < |s|
  {
    if |s| >= 1 && s[0] == SLASH then AfterLine(s[1..])
    else if |s| >= 2 && s[0] == STAR then AfterBlock(s[1], s[2..])
    else None
  }

  // ---------------------------------------------------------------- numbers

  predicate IsDigit(c: Byte) {
    48 <= c <= 57
  }

  predicate InBase(c: Byte, base: nat) {
    IsHex(c) && HexVal(c) < base
  }

  /** Digits of a number and the text behind them. */
  datatype Digits = Digits(value: nat, rest: seq<Byte>)

  function Run(acc: nat, s: seq<Byte>, base: nat): (r: Digits)
    ensures |r.rest| <= |s|
    decreases |s|
  {
    if s == [] || !InBase(s[0], base) then Digits(acc, s) else Run(acc * base + HexVal(s[0]), s[1..], base)
  }

  /** `strtoll` with base 0 on digits: a leading zero means octal, 0x hexadecimal. */
  function Magnitude(s: seq<Byte>): (r: Option<Digits>)
    ensures r.Some? ==> |r.value.rest| < |s|
  {
    if |s| >= 3 && s[0] == 48 && (s[1] == 120 || s[1] == 88) && IsHex(s[2]) then Some(Run(0, s[2..], 16))
    else if |s| >= 1 && s[0] == 48 then Some(Run(0, s[1..], 8))
    else if |s| >= 1 && IsDigit(s[0]) then Some(Run(HexVal(s[0]), s[1..], 10))
    else None
  }

  const MIN64: int := -0x8000_0000_0000_0000
  const MAX64: int := 0x7fff_ffff_ffff_ffff

  /** The number case of `parse_value`; `erange` tells that `errno` was ERANGE before, which the code
      takes for an overflow of its own. */
  function ParseNumber(s: seq<Byte>, erange: bool): (r: Parsed)
    ensures r.Parsed? ==> r.value.Some? && |r.rest| < |s|
  {
    var neg := s != [] && s[0] == MINUS;
    var m := Magnitude(if neg then s[1..] else s);
    if m.None? || erange then Rejected
    else
      var n: int := if neg then -1 * m.value.value else m.value.value;
      var rest := m.value.rest;
      if n < MIN64 || n > MAX64 then Rejected
      else if rest != [] && (rest[0] == 46 || rest[0] == 101 || rest[0] == 69) then Float
      else Parsed(Some(Int(n)), rest)
  }

  // ---------------------------------------------------------------- keys and values

  /** A key and the text behind its colon, or the closing brace. */
  datatype Key = NoKey | Key(key: seq<Byte>, rest: seq<Byte>) | Closed(rest: seq<Byte>)

  function SkipBlanks(s: seq<Byte>): (r: seq<Byte>)
    ensures |r| <= |s|
    decreases |s|
  {
    if s != [] && s[0] <= 32 then SkipBlanks(s[1..]) else s
  }

  function ParseKey(s: seq<Byte>): (r: Key)
    ensures r.Key? ==> |r.rest| < |s|
    ensures r.Closed? ==> |r.rest| <= |s| && r.rest != [] && r.rest[0] == RBRACE
    decreases |s|
  {
    if s == [] then NoKey
    else if s[0] == QUOTE then
      var k := Unescape(s[1..]);
      if k.Endless? then NoKey
      else
        var t := SkipBlanks(k.rest);
        if t != [] && t[0] == COLON then Key(k.text, t[1..]) else NoKey
    else if s[0] <= 32 || s[0] == COMMA then ParseKey(s[1..])
    else if s[0] == RBRACE then Closed(s)
    else if s[0] == SLASH then
      var t := AfterComment(s[1..]);
      if t.None? then NoKey else ParseKey(t.value)
    else NoKey
  }

  /** `parse_value` */
  function ParseValue(s: seq<Byte>, erange: bool): (r: Parsed)
    ensures r.Parsed? && r.value.Some? ==> |r.rest| < |s|
    ensures r.Parsed? && r.value.None? ==> |r.rest| <= |s| && r.rest != [] && r.rest[0] == RBRACKET
    decreases |s|, 0
  {
    if s == [] then Rejected
    else if IsSpace(s[0]) || s[0] == COMMA then ParseValue(s[1..], erange)
    else if s[0] == LBRACE then ParseMembers(s[1..], erange, [])
    else if s[0] == LBRACKET then ParseItems(s[1..], erange, [])
    else if s[0] == RBRACKET then Parsed(None, s)
    else if s[0] == QUOTE then
      var t := Unescape(s[1..]);
      if t.Endless? then Rejected else Parsed(Some(Str(t.text)), t.rest)
    else if s[0] == MINUS || IsDigit(s[0]) then ParseNumber(s, erange)
    else if TRUE <= s then Parsed(Some(Bool(true)), s[4..])
    else if FALSE <= s then Parsed(Some(Bool(false)), s[5..])
    else if NULL <= s then Parsed(Some(Null), s[4..])
    else if s[0] == SLASH then
      var t := AfterComment(s[1..]);
      if t.None? then Rejected else ParseValue(t.value, erange)
    else Rejected
  }

  /** The children loop of an object. */
  function ParseMembers(s: seq<Byte>, erange: bool, members: seq<Member>): (r: Parsed)
    ensures r.Parsed? ==> r.value.Some? && |r.rest| < |s|
    decreases |s|, 1
  {
    var k := ParseKey(s);
    if k.NoKey? then Rejected
    else if k.rest != [] && k.rest[0] == RBRACE then Parsed(Some(Obj(members)), k.rest[1..])
    else
      var v := ParseValue(k.rest, erange);
      if !v.Parsed? then v
      else if v.value.None? then ParseMembers(v.rest, erange, members)
      else ParseMembers(v.rest, erange, members + [Member(k.key, v.value.value)])
  }

  /** The children loop of an array. */
  function ParseItems(s: seq<Byte>, erange: bool, items: seq<Json>): (r: Parsed)
    ensures r.Parsed? ==> r.value.Some? && |r.rest| < |s|
    decreases |s|, 1
  {
    var v := ParseValue(s, erange);
    if !v.Parsed? then v
    else
      var more := if v.value.None? then items else items + [v.value.value];
      if v.rest != [] && v.rest[0] == RBRACKET then Parsed(Some(Arr(more)), v.rest[1..])
      else ParseItems(v.rest, erange, more)
  }

  /** `nx_json_parse`: the first value of the text. */
  function ParseText(s: seq<Byte>, erange: bool): (r: Option<Json>) {
    var v := ParseValue(s, erange);
    if v.Parsed? then v.value else None
  }
}
