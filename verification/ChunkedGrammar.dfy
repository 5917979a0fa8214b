/** The chunked transfer coding of section 4.1 of RFC 7230 as a grammar:
    a body is a list of non-empty chunks, then a last chunk of size zero.  The decoder of
    nxweb knows neither chunk extensions nor trailers, so the grammar has none. */
module ChunkedGrammar {
  import opened Octets

  /** Largest value of the signed 64-bit chunk counter. */
  const MAX_CHUNK: int := 0x7fff_ffff_ffff_ffff

  /** A chunk: the text of its size line and its data. */
  datatype Chunk = Chunk(size: seq<Byte>, data: seq<Byte>)

  ghost predicate ValidChunk(c: Chunk) {
    && 0 < |c.size| && AllHex(c.size)
    && HexAcc(0, c.size) == |c.data|
    && 0 < |c.data| <= MAX_CHUNK
  }

  ghost predicate ValidChunks(cs: seq<Chunk>) {
    forall i :: 0 <= i < |cs| ==> ValidChunk(cs[i])
  }

  /** The size text of a last chunk: `1*("0")`. */
  ghost predicate ValidLast(last: seq<Byte>) {
    0 < |last| && LaxLast(last)
  }

  /** What the decoder takes for the size text of a last chunk: zeros, or nothing at all. */
  ghost predicate LaxLast(last: seq<Byte>) {
    AllHex(last) && HexAcc(0, last) == 0
  }

  ghost function ChunkText(c: Chunk): (r: seq<Byte>) {
    c.size + CRLF + c.data + CRLF
  }

  ghost function ChunksText(cs: seq<Chunk>): (r: seq<Byte>) {
    if cs == [] then [] else ChunkText(cs[0]) + ChunksText(cs[1..])
  }

  /** The text of a whole chunked body. */
  ghost function Body(cs: seq<Chunk>, last: seq<Byte>): (r: seq<Byte>) {
    ChunksText(cs) + last + CRLF + CRLF
  }

  /** The data a chunked body carries. */
  ghost function Payload(cs: seq<Chunk>): (r: seq<Byte>) {
    if cs == [] then [] else cs[0].data + Payload(cs[1..])
  }

  /** The digits are those of RFC 5234, with letters in both cases, and no others. */
  lemma HexDigits(c: Byte, k: nat)
    requires k < 16
    ensures IsHex(Ascii("0123456789ABCDEF")[k]) && HexVal(Ascii("0123456789ABCDEF")[k]) == k
    ensures IsHex(Ascii("0123456789abcdef")[k]) && HexVal(Ascii("0123456789abcdef")[k]) == k
    ensures IsHex(c) ==> c == Ascii("0123456789ABCDEF")[HexVal(c)] || c == Ascii("0123456789abcdef")[HexVal(c)]
  {
  }

  /** A body of one chunk. */
  lemma SampleBody()
    ensures Body([Chunk(Ascii("2"), Ascii("hi"))], Ascii("0")) == Ascii("2\r\nhi\r\n0\r\n\r\n")
    ensures ValidChunk(Chunk(Ascii("2"), Ascii("hi")))
  {
    hide Ascii;
    SampleOctets();
    var c := Chunk([50], [104, 105]);
    assert c.size[1..] == [];
    assert [c][1..] == [] && ChunksText([c]) == ChunkText(c);
  }

  lemma SampleOctets()
    ensures Ascii("2") == [50] && Ascii("hi") == [104, 105] && Ascii("0") == [48]
    ensures Ascii("2\r\nhi\r\n0\r\n\r\n") == [50, 13, 10, 104, 105, 13, 10, 48, 13, 10, 13, 10]
  {
  }

  lemma {:induction false} ChunksTextAppend(cs: seq<Chunk>, c: Chunk)
    ensures ChunksText(cs + [c]) == ChunksText(cs) + ChunkText(c)
    ensures Payload(cs + [c]) == Payload(cs) + c.data
  {
    hide ChunkText;
    if cs == [] {
      assert cs + [c] == [c];
      assert [c][1..] == [];
    } else {
      ChunksTextAppend(cs[1..], c);
      assert (cs + [c])[1..] == cs[1..] + [c] && (cs + [c])[0] == cs[0];
      assert ChunkText(cs[0]) + (ChunksText(cs[1..]) + ChunkText(c)) == ChunksText(cs) + ChunkText(c);
      assert cs[0].data + (Payload(cs[1..]) + c.data) == Payload(cs) + c.data;
    }
  }

  ghost function Concat(parts: seq<seq<Byte>>): (r: seq<Byte>) {
    if parts == [] then [] else parts[0] + Concat(parts[1..])
  }
}
