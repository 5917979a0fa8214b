/** Texts of JSON trees after RFC 8259, with any white space and any choice of escapes, and that the
    parser reads every one of them as the tree it stands for. */
module JsonText {
  import opened Octets
  import opened Sequences
  import opened JsonStrings
  import opened JsonParser

  datatype Doc =
    | DNull | DBool(b: bool) | DInt(neg: bool, digits: seq<Byte>) | DStr(glyphs: seq<Glyph>)
    | DArr(blank: seq<Byte>, items: seq<Elem>)
    | DObj(blank: seq<Byte>, pairs: seq<Pair>)

  /** A value and the white space around it. */
  datatype Elem = Elem(before: seq<Byte>, doc: Doc, after: seq<Byte>)

  datatype Pair = Pair(before: seq<Byte>, key: seq<Glyph>, middle: seq<Byte>, elem: Elem)

  /** Blanks, tabs and the two line ends. */
  predicate IsBlank(c: Byte) {
    c == 0x20 || c == 0x09 || c == 0x0a || c == 0x0d
  }

  ghost predicate Blank(s: seq<Byte>) {
    forall i :: 0 <= i < |s| ==> IsBlank(s[i])
  }

  ghost predicate AllDigits(s: seq<Byte>) {
    forall i :: 0 <= i < |s| ==> IsDigit(s[i])
  }

  /** The number that digits stand for when they follow digits of value `acc`. */
  ghost function DecimalAcc(acc: nat, s: seq<Byte>): (r: nat)
    requires AllDigits(s)
    decreases |s|
  {
    if s == [] then acc else DecimalAcc(acc * 10 + HexVal(s[0]), s[1..])
  }

  ghost function Decimal(s: seq<Byte>): (r: nat)
    requires AllDigits(s)
  {
    DecimalAcc(0, s)
  }

  ghost predicate ValidInt(neg: bool, digits: seq<Byte>) {
    && digits != [] && AllDigits(digits) && (digits[0] == 48 ==> |digits| == 1)
    && MIN64 <= (if neg then -1 * Decimal(digits) else Decimal(digits)) <= MAX64
  }

  ghost predicate ValidDoc(d: Doc)
    decreases d
  {
    match d
    case DNull => true
    case DBool(_) => true
    case DInt(neg, digits) => ValidInt(neg, digits)
    case DStr(gs) => ValidGlyphs(gs)
    case DArr(blank, items) => Blank(blank) && forall i :: 0 <= i < |items| ==> ValidElem(items[i])
    case DObj(blank, pairs) => Blank(blank) && forall i :: 0 <= i < |pairs| ==> ValidPair(pairs[i])
  }

  ghost predicate ValidElem(e: Elem)
    decreases e
  {
    Blank(e.before) && ValidDoc(e.doc) && Blank(e.after)
  }

  ghost predicate ValidPair(p: Pair)
    decreases p
  {
    Blank(p.before) && ValidGlyphs(p.key) && Blank(p.middle) && ValidElem(p.elem)
  }

  ghost predicate ValidItems(items: seq<Elem>) {
    forall i :: 0 <= i < |items| ==> ValidElem(items[i])
  }

  ghost predicate ValidPairs(pairs: seq<Pair>) {
    forall i :: 0 <= i < |pairs| ==> ValidPair(pairs[i])
  }

  // ---------------------------------------------------------------- the text of a document

  /** The words and signs are those of sections 2 and 3 of RFC 8259. */
  ghost function Print(d: Doc): (r: seq<Byte>)
    decreases d, 0
  {
    match d
    case DNull => [0x6e, 0x75, 0x6c, 0x6c]
    case DBool(b) => if b then [0x74, 0x72, 0x75, 0x65] else [0x66, 0x61, 0x6c, 0x73, 0x65]
    case DInt(neg, digits) => (if neg then [0x2d] else []) + digits
    case DStr(gs) => [0x22] + (Text(gs) + [0x22])
    case DArr(blank, items) => [0x5b] + ((if items == [] then blank else PrintItems(items)) + [0x5d])
    case DObj(blank, pairs) => [0x7b] + ((if pairs == [] then blank else PrintPairs(pairs)) + [0x7d])
  }

  ghost function PrintElem(e: Elem): (r: seq<Byte>)
    decreases e, 0
  {
    e.before + (Print(e.doc) + e.after)
  }

  ghost function PrintItems(items: seq<Elem>): (r: seq<Byte>)
    requires items != []
    decreases items, 1
  {
    if |items| == 1 then PrintElem(items[0]) else PrintElem(items[0]) + ([0x2c] + PrintItems(items[1..]))
  }

  ghost function PrintPair(p: Pair): (r: seq<Byte>)
    decreases p, 0
  {
    p.before + ([0x22] + (Text(p.key) + ([0x22] + (p.middle + ([0x3a] + PrintElem(p.elem))))))
  }

  ghost function PrintPairs(pairs: seq<Pair>): (r: seq<Byte>)
    requires pairs != []
    decreases pairs, 1
  {
    if |pairs| == 1 then PrintPair(pairs[0]) else PrintPair(pairs[0]) + ([0x2c] + PrintPairs(pairs[1..]))
  }

  // ---------------------------------------------------------------- the tree of a document

  ghost function Tree(d: Doc): (r: Json)
    requires ValidDoc(d)
    decreases d, 0
  {
    match d
    case DNull => Null
    case DBool(b) => Bool(b)
    case DInt(neg, digits) => Int(if neg then -1 * Decimal(digits) else Decimal(digits))
    case DStr(gs) => Str(Meaning(gs))
    case DArr(_, items) => Arr(Items(items))
    case DObj(_, pairs) => Obj(Members(pairs))
  }

  ghost function Items(items: seq<Elem>): (r: seq<Json>)
    requires ValidItems(items)
    decreases items, 1
  {
    if items == [] then [] else [Tree(items[0].doc)] + Items(items[1..])
  }

  ghost function Members(pairs: seq<Pair>): (r: seq<Member>)
    requires ValidPairs(pairs)
    decreases pairs, 1
  {
    if pairs == [] then [] else
      assert ValidPair(pairs[0]) && ValidElem(pairs[0].elem);
      [Member(Meaning(pairs[0].key), Tree(pairs[0].elem.doc))] + Members(pairs[1..])
  }

  /** Whether there is a number in a document. */
  ghost predicate HasInt(d: Doc)
    decreases d, 0
  {
    match d
    case DNull => false
    case DBool(_) => false
    case DStr(_) => false
    case DInt(_, _) => true
    case DArr(_, items) => ItemsHaveInt(items)
    case DObj(_, pairs) => PairsHaveInt(pairs)
  }

  ghost predicate ItemsHaveInt(items: seq<Elem>)
    decreases items, 1
  {
    items != [] && (HasInt(items[0].doc) || ItemsHaveInt(items[1..]))
  }

  ghost predicate PairsHaveInt(pairs: seq<Pair>)
    decreases pairs, 1
  {
    pairs != [] && (HasInt(pairs[0].elem.doc) || PairsHaveInt(pairs[1..]))
  }

  // ---------------------------------------------------------------- numbers

  /** What may stand behind a value. */
  ghost predicate Delimited(s: seq<Byte>) {
    s == [] || IsBlank(s[0]) || s[0] == COMMA || s[0] == RBRACKET || s[0] == RBRACE
  }

  lemma {:induction false} RunDecimal(acc: nat, s: seq<Byte>, rest: seq<Byte>)
    requires AllDigits(s) && Delimited(rest)
    ensures Run(acc, s + rest, 10) == Digits(DecimalAcc(acc, s), rest)
    decreases |s|
  {
    if s == [] {
      assert s + rest == rest;
    } else {
      assert (s + rest)[0] == s[0] && (s + rest)[1..] == s[1..] + rest;
      RunDecimal(acc * 10 + HexVal(s[0]), s[1..], rest);
    }
  }

  lemma ParseInt(neg: bool, digits: seq<Byte>, rest: seq<Byte>, er: bool)
    requires ValidInt(neg, digits) && Delimited(rest)
    ensures ParseNumber(Print(DInt(neg, digits)) + rest, er) == Outcome(DInt(neg, digits), rest, er)
  {
    var s := Print(DInt(neg, digits)) + rest;
    var t := digits + rest;
    assert if neg then s[0] == MINUS && s[1..] == t else s == t && s[0] == digits[0];
    ParseDigits(digits, rest);
  }

  lemma ParseDigits(digits: seq<Byte>, rest: seq<Byte>)
    requires digits != [] && AllDigits(digits) && (digits[0] == 48 ==> |digits| == 1) && Delimited(rest)
    ensures Magnitude(digits + rest) == Some(Digits(Decimal(digits), rest))
  {
    var t := digits + rest;
    assert t[0] == digits[0] && t[1..] == digits[1..] + rest;
    assert Decimal(digits) == DecimalAcc(HexVal(digits[0]), digits[1..]);
    if digits[0] == 48 {
      assert digits[1..] == [] && t[1..] == rest;
    } else {
      RunDecimal(HexVal(digits[0]), digits[1..], rest);
    }
  }

  // ---------------------------------------------------------------- white space

  lemma {:induction false} SkipSpace(w: seq<Byte>, t: seq<Byte>, er: bool)
    requires Blank(w)
    ensures ParseValue(w + t, er) == ParseValue(t, er)
    ensures ParseKey(w + t) == ParseKey(t)
    decreases |w|
  {
    if w == [] {
      assert w + t == t;
    } else {
      assert (w + t)[0] == w[0] && (w + t)[1..] == w[1..] + t;
      SkipSpace(w[1..], t, er);
    }
  }

  /** White space and a comma are skipped before a value and before a key. */
  lemma SkipComma(w: seq<Byte>, t: seq<Byte>, er: bool)
    requires Blank(w)
    ensures ParseValue(w + ([COMMA] + t), er) == ParseValue(t, er)
    ensures ParseKey(w + ([COMMA] + t)) == ParseKey(t)
  {
    SkipSpace(w, [COMMA] + t, er);
    assert ([COMMA] + t)[1..] == t;
  }

  lemma {:induction false} SkipToColon(w: seq<Byte>, t: seq<Byte>)
    requires Blank(w)
    ensures SkipBlanks(w + ([COLON] + t)) == [COLON] + t
    decreases |w|
  {
    if w == [] {
      assert w + ([COLON] + t) == [COLON] + t;
    } else {
      assert (w + ([COLON] + t))[1..] == w[1..] + ([COLON] + t);
      SkipToColon(w[1..], t);
    }
  }

  // ---------------------------------------------------------------- values

  /** What the parser should make of a value's text: its tree; but with `errno` already ERANGE, the
      code takes the first number for an overflow. */
  ghost function Outcome(d: Doc, rest: seq<Byte>, er: bool): (r: Parsed)
    requires ValidDoc(d)
  {
    if er && HasInt(d) then Rejected else Parsed(Some(Tree(d)), rest)
  }

  /** The parser reads a value's text, and no further. */
  lemma {:induction false} ParseDoc(d: Doc, rest: seq<Byte>, er: bool)
    requires ValidDoc(d) && Delimited(rest)
    ensures ParseValue(Print(d) + rest, er) == Outcome(d, rest, er)
    decreases d, 0
  {
    hide ParseValue, ParseItems, ParseMembers, Decimal, Text, Meaning;
    match d {
      case DNull => ParseWord(d, rest, er);
      case DBool(b) => ParseWord(d, rest, er);
      case DInt(neg, digits) =>
        ParseInt(neg, digits, rest, er);
        IntStarts(neg, digits, rest, er);
      case DStr(gs) => ParseString(gs, rest, er);
      case DArr(blank, items) =>
        var body := if items == [] then blank else PrintItems(items);
        Opened(LBRACKET, body, RBRACKET, rest);
        Children(Print(d) + rest, er);
        if items == [] { ItemsEnd(blank, rest, [], er); } else { ItemsText(items, rest, [], er); }
        assert [] + Items(items) == Items(items) && HasInt(d) == ItemsHaveInt(items);
        assert items == [] ==> Items(items) == [] && !ItemsHaveInt(items);
      case DObj(blank, pairs) =>
        var body := if pairs == [] then blank else PrintPairs(pairs);
        Opened(LBRACE, body, RBRACE, rest);
        Children(Print(d) + rest, er);
        if pairs == [] { MembersEnd(blank, rest, [], er); } else { MembersText(pairs, rest, [], er); }
        assert [] + Members(pairs) == Members(pairs) && HasInt(d) == PairsHaveInt(pairs);
        assert pairs == [] ==> Members(pairs) == [] && !PairsHaveInt(pairs);
    }
  }

  lemma Children(s: seq<Byte>, er: bool)
    requires s != []
    ensures s[0] == LBRACKET ==> ParseValue(s, er) == ParseItems(s[1..], er, [])
    ensures s[0] == LBRACE ==> ParseValue(s, er) == ParseMembers(s[1..], er, [])
  {
  }

  lemma ParseString(gs: seq<Glyph>, rest: seq<Byte>, er: bool)
    requires ValidGlyphs(gs)
    ensures ParseValue(Print(DStr(gs)) + rest, er) == Parsed(Some(Str(Meaning(gs))), rest)
  {
    var s := Print(DStr(gs)) + rest;
    Opened(QUOTE, Text(gs), QUOTE, rest);
    UnescapeText(gs, rest);
  }

  lemma Opened(open: Byte, body: seq<Byte>, close: Byte, rest: seq<Byte>)
    ensures var s := [open] + (body + [close]) + rest;
            s[0] == open && s[1..] == body + ([close] + rest)
  {
  }

  lemma ParseWord(d: Doc, rest: seq<Byte>, er: bool)
    requires d.DNull? || d.DBool?
    ensures ParseValue(Print(d) + rest, er) == Parsed(Some(Tree(d)), rest)
  {
    var s := Print(d) + rest;
    assert s[|Print(d)|..] == rest;
    assert d.DNull? ==> s[0] == 110 && NULL <= s;
    assert d.DBool? && d.b ==> s[0] == 116 && TRUE <= s;
    assert d.DBool? && !d.b ==> s[0] == 102 && FALSE <= s;
  }

  lemma IntStarts(neg: bool, digits: seq<Byte>, rest: seq<Byte>, er: bool)
    requires ValidInt(neg, digits)
    ensures var s := Print(DInt(neg, digits)) + rest;
            s != [] && (s[0] == MINUS || IsDigit(s[0])) && ParseValue(s, er) == ParseNumber(s, er)
  {
    var s := Print(DInt(neg, digits)) + rest;
    assert s[0] == if neg then MINUS else digits[0];
  }

  lemma ParseElem(e: Elem, tail: seq<Byte>, er: bool)
    requires ValidElem(e) && Delimited(tail)
    ensures ValidDoc(e.doc) && Delimited(e.after + tail)
    ensures ParseValue(PrintElem(e) + tail, er) == Outcome(e.doc, e.after + tail, er)
    decreases e, 0
  {
    hide Outcome;
    ParseDoc(e.doc, e.after + tail, er);
    SkipSpace(e.before, Print(e.doc) + (e.after + tail), er);
    Assoc(e.before, Print(e.doc) + e.after, tail);
    Assoc(Print(e.doc), e.after, tail);
  }

  // ---------------------------------------------------------------- arrays

  lemma ItemsEnd(w: seq<Byte>, rest: seq<Byte>, acc: seq<Json>, er: bool)
    requires Blank(w)
    ensures ParseItems(w + ([RBRACKET] + rest), er, acc) == Parsed(Some(Arr(acc)), rest)
  {
    var t := [RBRACKET] + rest;
    SkipSpace(w, t, er);
    assert ParseValue(t, er) == Parsed(None, t) && t[1..] == rest;
  }

  /** One round of the loop. */
  lemma ItemsRound(s: seq<Byte>, acc: seq<Json>, v: Parsed, er: bool)
    requires ParseValue(s, er) == v && (v.Parsed? ==> v.value.Some?)
    ensures ParseItems(s, er, acc) ==
            if !v.Parsed? then v
            else if v.rest != [] && v.rest[0] == RBRACKET then Parsed(Some(Arr(acc + [v.value.value])), v.rest[1..])
            else ParseItems(v.rest, er, acc + [v.value.value])
  {
  }

  lemma ItemsComma(w: seq<Byte>, t: seq<Byte>, acc: seq<Json>, er: bool)
    requires Blank(w)
    ensures ParseItems(w + ([COMMA] + t), er, acc) == ParseItems(t, er, acc)
  {
    SkipComma(w, t, er);
  }

  lemma ItemsLast(s: seq<Byte>, acc: seq<Json>, j: Json, w: seq<Byte>, rest: seq<Byte>, er: bool)
    requires Blank(w) && ParseValue(s, er) == Parsed(Some(j), w + ([RBRACKET] + rest))
    ensures ParseItems(s, er, acc) == Parsed(Some(Arr(acc + [j])), rest)
  {
    hide ParseValue, ParseItems;
    var close := [RBRACKET] + rest;
    ItemsRound(s, acc, Parsed(Some(j), w + close), er);
    ItemsEnd(w, rest, acc + [j], er);
    if w == [] { assert w + close == close && close[1..] == rest; }
  }

  lemma ItemsNext(s: seq<Byte>, acc: seq<Json>, j: Json, w: seq<Byte>, t: seq<Byte>, er: bool)
    requires Blank(w) && ParseValue(s, er) == Parsed(Some(j), w + ([COMMA] + t))
    ensures ParseItems(s, er, acc) == ParseItems(t, er, acc + [j])
  {
    hide ParseValue, ParseItems;
    ItemsRound(s, acc, Parsed(Some(j), w + ([COMMA] + t)), er);
    ItemsComma(w, t, acc + [j], er);
  }

  lemma Shift(a: seq<Byte>, c: Byte, b: seq<Byte>, rest: seq<Byte>)
    ensures a + ([c] + b) + rest == a + ([c] + (b + rest))
  {
  }

  lemma ItemsSplit(items: seq<Elem>, close: seq<Byte>)
    requires |items| > 1
    ensures PrintItems(items) + close == PrintElem(items[0]) + ([COMMA] + (PrintItems(items[1..]) + close))
  {
    hide PrintElem;
    Shift(PrintElem(items[0]), COMMA, PrintItems(items[1..]), close);
  }

  lemma ItemsCons(items: seq<Elem>)
    requires ValidItems(items) && items != []
    ensures ValidElem(items[0]) && ValidDoc(items[0].doc) && Blank(items[0].after) && ValidItems(items[1..])
    ensures Items(items) == [Tree(items[0].doc)] + Items(items[1..])
    ensures ItemsHaveInt(items) <==> HasInt(items[0].doc) || ItemsHaveInt(items[1..])
    ensures |items| == 1 ==> Items(items) == [Tree(items[0].doc)] && PrintItems(items) == PrintElem(items[0])
                             && !ItemsHaveInt(items[1..])
  {
    hide Tree, PrintElem, HasInt;
  }

  lemma ItemsText(items: seq<Elem>, rest: seq<Byte>, acc: seq<Json>, er: bool)
    requires ValidItems(items) && items != []
    ensures ParseItems(PrintItems(items) + ([RBRACKET] + rest), er, acc)
            == if er && ItemsHaveInt(items) then Rejected else Parsed(Some(Arr(acc + Items(items))), rest)
    decreases items, 1
  {
    hide ParseValue, ParseItems, PrintElem, PrintItems, Items, Tree, ValidItems, ValidElem, ValidDoc, Blank, HasInt, ItemsHaveInt;
    ItemsCons(items);
    var e, close := items[0], [RBRACKET] + rest;
    var j := Tree(e.doc);
    var t := if |items| == 1 then [] else PrintItems(items[1..]) + close;
    var tail := if |items| == 1 then close else [COMMA] + t;
    if |items| > 1 { ItemsSplit(items, close); }
    ParseElem(e, tail, er);
    if er && HasInt(e.doc) {
      ItemsRound(PrintElem(e) + tail, acc, Rejected, er);
    } else if |items| == 1 {
      ItemsLast(PrintElem(e) + close, acc, j, e.after, rest, er);
    } else {
      ItemsNext(PrintElem(e) + tail, acc, j, e.after, t, er);
      ItemsText(items[1..], rest, acc + [j], er);
      assert acc + ([j] + Items(items[1..])) == acc + [j] + Items(items[1..]);
    }
  }

  // ---------------------------------------------------------------- objects

  lemma MembersEnd(w: seq<Byte>, rest: seq<Byte>, acc: seq<Member>, er: bool)
    requires Blank(w)
    ensures ParseMembers(w + ([RBRACE] + rest), er, acc) == Parsed(Some(Obj(acc)), rest)
  {
    var t := [RBRACE] + rest;
    SkipSpace(w, t, er);
    assert ParseKey(t) == Closed(t) && t[1..] == rest;
  }

  lemma MembersRound(s: seq<Byte>, acc: seq<Member>, key: seq<Byte>, t: seq<Byte>, v: Parsed, er: bool)
    requires ParseKey(s) == Key(key, t) && t != [] && t[0] != RBRACE
    requires ParseValue(t, er) == v && (v.Parsed? ==> v.value.Some?)
    ensures ParseMembers(s, er, acc) ==
            if v.Parsed? then ParseMembers(v.rest, er, acc + [Member(key, v.value.value)]) else v
  {
  }

  lemma MembersComma(w: seq<Byte>, t: seq<Byte>, acc: seq<Member>, er: bool)
    requires Blank(w)
    ensures ParseMembers(w + ([COMMA] + t), er, acc) == ParseMembers(t, er, acc)
  {
    SkipComma(w, t, er);
  }

  /** The text of a value does not start with a closing brace. */
  lemma FirstOctet(e: Elem, tail: seq<Byte>)
    requires ValidElem(e)
    ensures PrintElem(e) + tail != [] && (PrintElem(e) + tail)[0] != RBRACE
  {
    var d := e.doc;
    assert Print(d) != [] && Print(d)[0] != RBRACE;
    assert (PrintElem(e) + tail)[0] == if e.before == [] then Print(d)[0] else e.before[0];
  }

  lemma PairKey(p: Pair, tail: seq<Byte>)
    requires ValidPair(p)
    ensures ParseKey(PrintPair(p) + tail) == Key(Meaning(p.key), PrintElem(p.elem) + tail)
  {
    hide Meaning, Text, PrintElem;
    var value := PrintElem(p.elem) + tail;
    var colon := p.middle + ([COLON] + value);
    var quoted := Text(p.key) + ([QUOTE] + colon);
    assert PrintPair(p) + tail == p.before + ([QUOTE] + quoted);
    SkipSpace(p.before, [QUOTE] + quoted, false);
    assert ([QUOTE] + quoted)[1..] == quoted;
    UnescapeText(p.key, colon);
    SkipToColon(p.middle, value);
    assert ([COLON] + value)[1..] == value;
  }

  lemma PairsSplit(pairs: seq<Pair>, close: seq<Byte>)
    requires |pairs| > 1
    ensures PrintPairs(pairs) + close == PrintPair(pairs[0]) + ([COMMA] + (PrintPairs(pairs[1..]) + close))
  {
    hide PrintPair;
    Shift(PrintPair(pairs[0]), COMMA, PrintPairs(pairs[1..]), close);
  }

  lemma PairStep(p: Pair, tail: seq<Byte>, acc: seq<Member>, er: bool)
    requires ValidPair(p) && Delimited(tail) && ValidElem(p.elem) && ValidDoc(p.elem.doc)
    ensures ParseMembers(PrintPair(p) + tail, er, acc) ==
            if er && HasInt(p.elem.doc) then Rejected
            else ParseMembers(p.elem.after + tail, er, acc + [Member(Meaning(p.key), Tree(p.elem.doc))])
    decreases p, 1
  {
    hide ParseValue, ParseKey, ParseMembers, PrintElem, PrintPair, Meaning, HasInt, Tree;
    ParseElem(p.elem, tail, er);
    FirstOctet(p.elem, tail);
    PairKey(p, tail);
    MembersRound(PrintPair(p) + tail, acc, Meaning(p.key), PrintElem(p.elem) + tail,
                 Outcome(p.elem.doc, p.elem.after + tail, er), er);
  }

  lemma MembersCons(pairs: seq<Pair>)
    requires ValidPairs(pairs) && pairs != []
    ensures ValidPair(pairs[0]) && ValidElem(pairs[0].elem) && ValidDoc(pairs[0].elem.doc) && Blank(pairs[0].elem.after)
    ensures ValidGlyphs(pairs[0].key) && ValidPairs(pairs[1..])
    ensures Members(pairs) == [Member(Meaning(pairs[0].key), Tree(pairs[0].elem.doc))] + Members(pairs[1..])
    ensures PairsHaveInt(pairs) <==> HasInt(pairs[0].elem.doc) || PairsHaveInt(pairs[1..])
    ensures |pairs| == 1 ==> PrintPairs(pairs) == PrintPair(pairs[0]) && !PairsHaveInt(pairs[1..])
                             && Members(pairs) == [Member(Meaning(pairs[0].key), Tree(pairs[0].elem.doc))]
  {
    hide Tree, PrintPair, Meaning, HasInt;
    assert ValidPair(pairs[0]) && ValidElem(pairs[0].elem);
  }

  lemma MembersText(pairs: seq<Pair>, rest: seq<Byte>, acc: seq<Member>, er: bool)
    requires ValidPairs(pairs) && pairs != []
    ensures ParseMembers(PrintPairs(pairs) + ([RBRACE] + rest), er, acc)
            == if er && PairsHaveInt(pairs) then Rejected else Parsed(Some(Obj(acc + Members(pairs))), rest)
    decreases pairs, 1
  {
    hide ParseMembers, PrintPair, PrintPairs, Members, Meaning, Tree, HasInt, PairsHaveInt;
    hide ValidPairs, ValidPair, ValidElem, ValidDoc, ValidGlyphs, Blank;
    MembersCons(pairs);
    var p, close := pairs[0], [RBRACE] + rest;
    var m := Member(Meaning(p.key), Tree(p.elem.doc));
    var t := if |pairs| == 1 then [] else PrintPairs(pairs[1..]) + close;
    var tail := if |pairs| == 1 then close else [COMMA] + t;
    if |pairs| > 1 { PairsSplit(pairs, close); }
    PairStep(p, tail, acc, er);
    if !(er && HasInt(p.elem.doc)) {
      if |pairs| == 1 {
        MembersEnd(p.elem.after, rest, acc + [m], er);
      } else {
        MembersComma(p.elem.after, t, acc + [m], er);
        MembersText(pairs[1..], rest, acc + [m], er);
        assert acc + ([m] + Members(pairs[1..])) == acc + [m] + Members(pairs[1..]);
      }
    }
  }

  // ---------------------------------------------------------------- round trip

  /** Every text of a tree, with any white space and any escapes, is read as that tree, unless there is
      a number in it and `errno` was left at ERANGE by an earlier call. */
  lemma TextIsRead(e: Elem, er: bool)
    requires ValidElem(e)
    ensures ValidDoc(e.doc)
    ensures ParseText(PrintElem(e), er) == Some(Tree(e.doc)) <==> !(er && HasInt(e.doc))
    ensures er && HasInt(e.doc) ==> ParseText(PrintElem(e), er) == None
  {
    hide ParseValue, PrintElem, Tree, HasInt;
    ParseElem(e, [], er);
    assert PrintElem(e) + [] == PrintElem(e);
  }

  /** Trees the parser can represent: strings without NUL, integers of 64 bits. */
  ghost predicate Plain(t: Json)
    decreases t
  {
    match t
    case Null => true
    case Bool(_) => true
    case Int(n) => MIN64 <= n <= MAX64
    case Str(text) => 0 !in text
    case Arr(items) => forall i :: 0 <= i < |items| ==> Plain(items[i])
    case Obj(members) => forall i :: 0 <= i < |members| ==> 0 !in members[i].key && Plain(members[i].value)
  }

  ghost function DecDigits(n: nat): (s: seq<Byte>)
    ensures s != [] && AllDigits(s) && (s[0] == 48 ==> n == 0) && (n == 0 ==> s == [48])
  {
    if n < 10 then [48 + n] else DecDigits(n / 10) + [48 + n % 10]
  }

  lemma {:induction false} DecimalAppend(acc: nat, s: seq<Byte>, c: Byte)
    requires AllDigits(s) && IsDigit(c)
    ensures AllDigits(s + [c]) && DecimalAcc(acc, s + [c]) == DecimalAcc(acc, s) * 10 + HexVal(c)
    decreases |s|
  {
    if s == [] {
      assert s + [c] == [c] && [c][1..] == [];
    } else {
      assert (s + [c])[1..] == s[1..] + [c];
      DecimalAppend(acc * 10 + HexVal(s[0]), s[1..], c);
    }
  }

  lemma {:induction false} DecDigitsMean(n: nat)
    ensures Decimal(DecDigits(n)) == n
    decreases n
  {
    if n < 10 {
      DecimalAppend(0, [], 48 + n);
      assert [] + [48 + n] == DecDigits(n);
    } else {
      DecDigitsMean(n / 10);
      DecimalAppend(0, DecDigits(n / 10), 48 + n % 10);
    }
  }

  /** One document for every tree. */
  ghost function Encode(t: Json): (r: Doc)
    requires Plain(t)
    decreases t, 0
  {
    match t
    case Null => DNull
    case Bool(b) => DBool(b)
    case Int(n) => DInt(n < 0, DecDigits(if n < 0 then -n else n))
    case Str(text) => DStr(Spell(text))
    case Arr(items) => DArr([], EncodeItems(items))
    case Obj(members) => DObj([], EncodeMembers(members))
  }

  ghost predicate PlainItems(items: seq<Json>) {
    forall i :: 0 <= i < |items| ==> Plain(items[i])
  }

  ghost predicate PlainMembers(members: seq<Member>) {
    forall i :: 0 <= i < |members| ==> 0 !in members[i].key && Plain(members[i].value)
  }

  ghost function EncodeItems(items: seq<Json>): (r: seq<Elem>)
    requires PlainItems(items)
    decreases items, 1
  {
    if items == [] then [] else [Elem([], Encode(items[0]), [])] + EncodeItems(items[1..])
  }

  ghost function EncodeMembers(members: seq<Member>): (r: seq<Pair>)
    requires PlainMembers(members)
    decreases members, 1
  {
    if members == [] then []
    else [Pair.Pair([], Spell(members[0].key), [], Elem([], Encode(members[0].value), []))] + EncodeMembers(members[1..])
  }

  lemma {:induction false} EncodeMeans(t: Json)
    requires Plain(t)
    ensures ValidDoc(Encode(t)) && Tree(Encode(t)) == t
    decreases t, 0
  {
    hide Decimal, DecDigits, Spell, Meaning, ValidGlyphs, AllDigits;
    match t {
      case Null =>
      case Bool(b) =>
      case Int(n) => DecDigitsMean(if n < 0 then -n else n);
      case Str(text) => SpellMeans(text);
      case Arr(items) => EncodeItemsMean(items);
      case Obj(members) => EncodeMembersMean(members);
    }
  }

  lemma {:induction false} EncodeItemsMean(items: seq<Json>)
    requires PlainItems(items)
    ensures ValidItems(EncodeItems(items)) && Items(EncodeItems(items)) == items
    decreases items, 1
  {
    if items != [] {
      hide Encode, Tree, ValidDoc;
      EncodeMeans(items[0]);
      EncodeItemsMean(items[1..]);
      var es := EncodeItems(items);
      assert es[1..] == EncodeItems(items[1..]);
      assert ValidElem(es[0]);
      assert items == [items[0]] + items[1..];
    }
  }

  lemma {:induction false} EncodeMembersMean(members: seq<Member>)
    requires PlainMembers(members)
    ensures ValidPairs(EncodeMembers(members)) && Members(EncodeMembers(members)) == members
    decreases members, 1
  {
    if members != [] {
      hide Encode, Tree, ValidDoc, Spell, Meaning, ValidGlyphs;
      EncodeMeans(members[0].value);
      SpellMeans(members[0].key);
      EncodeMembersMean(members[1..]);
      var ps := EncodeMembers(members);
      assert ps[1..] == EncodeMembers(members[1..]);
      assert ValidElem(ps[0].elem) && ValidPair(ps[0]);
      assert members == [members[0]] + members[1..];
    }
  }

  /** Every tree has a text, and parsing that text rebuilds the tree. */
  lemma RoundTrip(t: Json)
    requires Plain(t)
    ensures ParseText(PrintElem(Elem([], Encode(t), [])), false) == Some(t)
  {
    EncodeMeans(t);
    TextIsRead(Elem([], Encode(t), []), false);
  }
}
