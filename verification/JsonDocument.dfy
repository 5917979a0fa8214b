/** RFC 8259 texts in a buffer: parsing one in place leaves a tree whose strings lie in the buffer. */
module JsonDocument {
  import opened Octets
  import opened JsonStrings
  import opened JsonParser
  import opened JsonText
  import InPlace = JsonInPlace

  lemma {:induction false} TextNoNul(gs: seq<Glyph>)
    requires ValidGlyphs(gs)
    ensures 0 !in Text(gs)
    decreases |gs|
  {
    if gs != [] {
      GlyphNoNul(gs[0]);
      TextNoNul(gs[1..]);
    }
  }

  lemma GlyphNoNul(g: Glyph)
    requires ValidGlyph(g)
    ensures 0 !in GlyphText(g)
  {
    match g {
      case Code(h) => HexNoNul(h);
      case Pair(h, l) => HexNoNul(h); HexNoNul(l);
      case _ =>
    }
  }

  lemma HexNoNul(h: seq<Byte>)
    requires |h| == 4 && FourHex(h)
    ensures 0 !in h
  {
    assert forall c :: c in h ==> c == h[0] || c == h[1] || c == h[2] || c == h[3];
  }

  /** No text of a document holds a NUL. */
  lemma {:induction false} DocNoNul(d: Doc)
    requires ValidDoc(d)
    ensures 0 !in Print(d)
    decreases d, 0
  {
    hide Text;
    match d {
      case DStr(gs) => TextNoNul(gs);
      case DArr(_, items) => if items != [] { ItemsNoNul(items); }
      case DObj(_, pairs) => if pairs != [] { PairsNoNul(pairs); }
      case _ =>
    }
  }

  lemma {:induction false} ElemNoNul(e: Elem)
    requires ValidElem(e)
    ensures 0 !in PrintElem(e)
    decreases e, 0
  {
    hide Print;
    DocNoNul(e.doc);
  }

  lemma {:induction false} ItemsNoNul(items: seq<Elem>)
    requires ValidItems(items) && items != []
    ensures 0 !in PrintItems(items)
    decreases items, 1
  {
    hide PrintElem, ValidElem;
    ElemNoNul(items[0]);
    if |items| > 1 { ItemsNoNul(items[1..]); }
  }

  lemma {:induction false} PairsNoNul(pairs: seq<JsonText.Pair>)
    requires ValidPairs(pairs) && pairs != []
    ensures 0 !in PrintPairs(pairs)
    decreases pairs, 1
  {
    hide PrintPair;
    PairNoNul(pairs[0]);
    if |pairs| > 1 { PairsNoNul(pairs[1..]); }
  }

  lemma {:induction false} PairNoNul(p: JsonText.Pair)
    requires ValidPair(p)
    ensures 0 !in PrintPair(p)
    decreases p, 0
  {
    hide PrintElem, Text;
    ElemNoNul(p.elem);
    TextNoNul(p.key);
  }

  /** Every RFC 8259 text, with any white space and escapes, handed over in a buffer is parsed in place
      to its tree, whose strings and keys then lie NUL-terminated in the buffer; it is rejected exactly
      if it holds a number and `errno` was left at ERANGE. */
  method ParseDocument(buf: array<Byte>, n: nat, er: bool, ghost e: Elem) returns (r: InPlace.Found)
    requires n < buf.Length && buf[n] == 0 && ValidElem(e) && ValidDoc(e.doc) && buf[..n] == PrintElem(e)
    modifies buf
    ensures if er && HasInt(e.doc) then r == InPlace.Failed
            else r.Found? && r.node.Some? && InPlace.Stands(buf[..], r.node.value, Tree(e.doc), r.next)
  {
    hide ParseValue, PrintElem, Tree, HasInt, InPlace.Stands;
    ElemNoNul(e);
    assert buf[..][0..n] == buf[..n];
    ParseElem(e, [], er);
    assert PrintElem(e) + [] == PrintElem(e);
    r := InPlace.Parse(buf, n, er);
  }
}
