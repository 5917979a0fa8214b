/** The resumable encoder `_nxweb_encode_chunked_*` and the write path that drives it. */
module ChunkedEncoder {
  import opened Octets
  import opened Sequences
  import opened ChunkedGrammar

  /** Size of the encoder's header buffer, and the largest chunk it makes. */
  const HEADER := 8
  const MAX_OFFER := 0xffff

  const LAST_CHUNK: seq<Byte> := [48, CR, LF, CR, LF]

  function HexDigit(n: nat): (r: Byte)
    requires n < 16
  {
    if n < 10 then 48 + n else 55 + n
  }

  /** The last `digits` upper-case hexadecimal digits of `n`: `uint_to_hex_string_zeropad`. */
  function HexPad(n: nat, digits: nat): (s: seq<Byte>)
    ensures |s| == digits
  {
    if digits == 0 then [] else HexPad(n / 16, digits - 1) + [HexDigit(n % 16)]
  }

  ghost function Pow16(k: nat): (r: nat) {
    if k == 0 then 1 else 16 * Pow16(k - 1)
  }

  /** The digits written for a number read back as that number. */
  lemma {:induction false} HexPadValue(n: nat, digits: nat)
    requires n < Pow16(digits)
    ensures AllHex(HexPad(n, digits)) && HexAcc(0, HexPad(n, digits)) == n
    decreases digits
  {
    if digits > 0 {
      HexPadValue(n / 16, digits - 1);
      DigitValue(n % 16);
      HexAccAppend(0, HexPad(n / 16, digits - 1), HexDigit(n % 16));
    }
  }

  lemma DigitValue(x: nat)
    requires x < 16
    ensures IsHex(HexDigit(x)) && HexVal(HexDigit(x)) == x
  {
  }

  lemma {:induction false} HexAccAppend(acc: nat, s: seq<Byte>, c: Byte)
    requires AllHex(s) && IsHex(c)
    ensures AllHex(s + [c]) && HexAcc(acc, s + [c]) == HexAcc(acc, s) * 16 + HexVal(c)
    decreases |s|
  {
    if s == [] {
      assert (s + [c])[1..] == [];
    } else {
      assert (s + [c])[1..] == s[1..] + [c];
      HexAccAppend(acc * 16 + HexVal(s[0]), s[1..], c);
    }
  }

  /** The size line of a chunk of at most `MAX_OFFER` octets has four digits. */
  function Hex4(n: nat): (s: seq<Byte>)
    ensures |s| == 4
  {
    HexPad(n, 4)
  }

  lemma Hex4Value(n: nat)
    requires n <= MAX_OFFER
    ensures AllHex(Hex4(n)) && HexAcc(0, Hex4(n)) == n
  {
    assert Pow16(4) == 16 * Pow16(3) && Pow16(3) == 16 * Pow16(2);
    HexPadValue(n, 4);
  }

  // ---------------------------------------------------------------- the encoder on values

  /** The encoder's fields; `prepared` is `header_prepared`. */
  datatype Enc = Enc(final: bool, prepared: bool, chunkSize: nat, pos: nat, buf: seq<Byte>)

  const START := Enc(false, false, 0, 2, CRLF + [48, 48, 48, 48] + CRLF)

  ghost predicate Valid(e: Enc) {
    && |e.buf| == HEADER && e.buf[..2] == CRLF && (!e.final ==> e.buf[6..] == CRLF)
    && (if e.final then !e.prepared && e.pos <= 7 && e.buf[2..7] == LAST_CHUNK
        else if e.prepared then
          && 1 <= e.chunkSize <= MAX_OFFER && e.pos < HEADER + e.chunkSize
          && e.buf == CRLF + Hex4(e.chunkSize) + CRLF
        else e.pos <= 2)
  }

  /** Data octets the announced chunk still lacks. */
  function Left(e: Enc): (r: int) {
    if e.final || !e.prepared then 0
    else if e.pos < HEADER then e.chunkSize else e.chunkSize - (e.pos - HEADER)
  }

  /** What the encoder demands of its producer: an offer is never smaller than the rest of the
      announced chunk, and behind the end of the data only the end is offered. */
  predicate Legal(e: Enc, size: nat, eof: bool) {
    if e.final then eof && size == 0 else size >= Left(e)
  }

  /** Octets `buf[from..from + size]` are to be sent if `any`; `offered` and `eof` are the
      caller's values as the encoder leaves them. */
  datatype Plan = Plan(enc: Enc, any: bool, from: nat, size: nat, offered: nat, eof: bool)

  function Stream(e: Enc, offered: nat, eof: bool): (r: Plan)
    requires |e.buf| == HEADER && (e.final ==> e.pos <= 7)
  {
    if e.final then Plan(e, true, e.pos, 7 - e.pos, offered, eof)
    else if e.pos <= 2 && !e.prepared then
      if offered == 0 then
        if eof then
          Plan(e.(final := true, buf := e.buf[..2] + LAST_CHUNK + e.buf[7..]), true, e.pos, 7 - e.pos, 0, true)
        else Plan(e, 2 - e.pos != 0, e.pos, 2 - e.pos, 0, false)
      else
        var n := if offered > MAX_OFFER then MAX_OFFER else offered;
        Plan(e.(chunkSize := n, prepared := true, buf := e.buf[..2] + Hex4(n) + e.buf[6..]),
             true, e.pos, HEADER - e.pos, n, false)
    else if e.pos < HEADER then
      Plan(e, true, e.pos, HEADER - e.pos, if offered > e.chunkSize then e.chunkSize else offered, false)
    else
      var left := e.chunkSize - (e.pos - HEADER);
      Plan(e, false, 0, 0, if offered > left && left >= 0 then left else offered, false)
  }

  function Advance(e: Enc, delta: nat): (r: Enc) {
    if delta == 0 then e
    else if e.pos + delta == HEADER + e.chunkSize then e.(pos := 0, prepared := false)
    else e.(pos := e.pos + delta)
  }

  predicate IsComplete(e: Enc) {
    e.final && e.pos == 7
  }

  // ---------------------------------------------------------------- the write path on values

  /** New encoder, octets the socket took, and whether it took all there was to send. */
  datatype Sent = Sent(enc: Enc, wire: seq<Byte>, all: bool)

  /** Sends what `Stream` plans, as far as the room `k` allows. */
  function SendPlan(e: Enc, offered: nat, eof: bool, k: nat): (r: Sent)
    requires Valid(e)
  {
    var p := Stream(e, offered, eof);
    if !p.any then Sent(p.enc, [], true)
    else
      var t := Min(k, p.size);
      Sent(Advance(p.enc, t), p.enc.buf[p.from..p.from + t], t == p.size)
  }

  /** Sends `n` octets of the data. */
  function SendData(e: Enc, data: seq<Byte>, n: nat, k: nat): (r: Sent)
    requires n <= |data|
  {
    var t := Min(k, n);
    Sent(Advance(e, t), data[..t], t == n)
  }

  lemma PlanKeeps(e: Enc, offered: nat, eof: bool, k: nat)
    requires Valid(e) && Legal(e, offered, eof)
    ensures var r, p := SendPlan(e, offered, eof, k), Stream(e, offered, eof);
            && Valid(r.enc) && r.enc.final == p.enc.final
            && p.offered <= offered && p.offered <= MAX_OFFER
            && (p.enc.final ==> p.offered == offered == 0 && eof)
            && (offered == 0 && !eof ==> !p.enc.final && Left(r.enc) == 0)
            && (r.all && !p.enc.final ==> Left(r.enc) == p.offered && (p.offered > 0 ==> r.enc.pos >= HEADER))
            && Left(r.enc) <= p.offered
  {
    var p := Stream(e, offered, eof);
    if !e.final && e.pos <= 2 && !e.prepared {
      assert p.enc.buf[..2] == CRLF;
      if offered == 0 && eof {
        assert p.enc.buf[2..7] == LAST_CHUNK;
      } else if offered > 0 {
        assert p.enc.buf[6..] == CRLF;
        assert p.enc.buf == CRLF + Hex4(p.offered) + CRLF;
      }
    }
  }

  lemma DataKeeps(e: Enc, data: seq<Byte>, n: nat, k: nat)
    requires Valid(e) && !e.final && Left(e) == n <= |data| && (n > 0 ==> e.pos >= HEADER)
    ensures var r := SendData(e, data, n, k);
            && Valid(r.enc) && !r.enc.final && Left(r.enc) == n - |r.wire|
            && (r.all <==> !r.enc.prepared)
  {
  }

  /** New encoder, octets the socket took, data octets accepted, and whether none was refused. */
  datatype Written = Written(enc: Enc, wire: seq<Byte>, accepted: nat, all: bool)

  /** The size of the chunk the data goes into. */
  function ChunkOf(e: Enc, size: nat, eof: bool): (r: nat)
    requires Valid(e)
  {
    Stream(e, size, eof).offered
  }

  /** Data goes into the chunk that was announced, up to its end; if there is none, all of it makes a new
      chunk, as far as four digits can tell its size. */
  lemma ChunkIs(e: Enc, size: nat, eof: bool)
    requires Valid(e) && Legal(e, size, eof)
    ensures ChunkOf(e, size, eof) == if e.prepared then Left(e) else if size <= 65535 then size else 65535
  {
  }

  /** The first half of a write: what is left of a header, then data up to the chunk's end. */
  function WriteChunk(e: Enc, data: seq<Byte>, eof: bool, k0: nat, k1: nat): (w: Written)
    requires Valid(e) && Legal(e, |data|, eof)
    ensures ChunkOf(e, |data|, eof) <= |data|
    ensures Valid(w.enc) && w.accepted <= |data| && (w.all ==> Left(w.enc) == 0)
    ensures w.all && w.enc.final ==> eof && data == []
    ensures !w.all ==> !w.enc.final || data == []
  {
    PlanKeeps(e, |data|, eof, k0);
    var n := ChunkOf(e, |data|, eof);
    var h := SendPlan(e, |data|, eof, k0);
    if !h.all || n == 0 then Written(h.enc, h.wire, 0, h.all)
    else
      DataKeeps(h.enc, data, n, k1);
      var d := SendData(h.enc, data, n, k1);
      Written(d.enc, h.wire + d.wire, |d.wire|, d.all)
  }

  lemma ChunkKeeps(e: Enc, data: seq<Byte>, eof: bool, k0: nat, k1: nat)
    requires Valid(e) && Legal(e, |data|, eof)
    ensures var w := WriteChunk(e, data, eof, k0, k1);
            && w.accepted + Left(w.enc) <= |data|
            && (w.all ==> w.accepted == ChunkOf(e, |data|, eof))
            && (w.enc.final ==> eof && w.accepted == |data|)
  {
    PlanKeeps(e, |data|, eof, k0);
    var n := ChunkOf(e, |data|, eof);
    var h := SendPlan(e, |data|, eof, k0);
    if h.all && n > 0 {
      DataKeeps(h.enc, data, n, k1);
    }
  }

  /** `resp_body_in_write_or_sendfile` for a response with automatic chunking: a header, data,
      and a chunk end or last chunk, each cut short by the room the socket has for it. */
  function WriteBody(e: Enc, data: seq<Byte>, eof: bool, room: (nat, nat, nat)): (w: Written)
    requires Valid(e) && Legal(e, |data|, eof)
    ensures Valid(w.enc) && w.accepted <= |data|
  {
    var c := WriteChunk(e, data, eof, room.0, room.1);
    if !c.all then c
    else
      var cwf := if ChunkOf(e, |data|, eof) == |data| then eof else false;
      PlanKeeps(c.enc, 0, cwf, room.2);
      var f := SendPlan(c.enc, 0, cwf, room.2);
      Written(f.enc, c.wire + f.wire, c.accepted, f.all)
  }

  // ---------------------------------------------------------------- what is on the wire

  /** Chunks as this encoder writes them. */
  ghost predicate OurChunks(cs: seq<Chunk>) {
    forall i :: 0 <= i < |cs| ==> 1 <= |cs[i].data| <= MAX_OFFER && cs[i].size == Hex4(|cs[i].data|)
  }

  lemma OurChunksValid(cs: seq<Chunk>)
    requires OurChunks(cs)
    ensures ValidChunks(cs)
  {
    forall i | 0 <= i < |cs| ensures ValidChunk(cs[i]) {
      Hex4Value(|cs[i].data|);
    }
  }

  /** The chunks with each line end in front of the chunk it separates, as the encoder sends them. */
  ghost function Lead(cs: seq<Chunk>): (r: seq<Byte>) {
    if cs == [] then []
    else Lead(cs[..|cs| - 1]) + (CRLF + cs[|cs| - 1].size + CRLF) + cs[|cs| - 1].data
  }

  lemma {:induction false} LeadText(cs: seq<Chunk>)
    ensures Lead(cs) + CRLF == CRLF + ChunksText(cs)
    decreases |cs|
  {
    if cs != [] {
      var n := |cs| - 1;
      LeadText(cs[..n]);
      ChunksTextAppend(cs[..n], cs[n]);
      assert cs == cs[..n] + [cs[n]];
      var head := CRLF + cs[n].size + CRLF;
      calc {
        Lead(cs) + CRLF;
        Lead(cs[..n]) + head + cs[n].data + CRLF;
        Lead(cs[..n]) + CRLF + ChunkText(cs[n]);
        CRLF + ChunksText(cs[..n]) + ChunkText(cs[n]);
        CRLF + ChunksText(cs);
      }
    }
  }

  /** The part of the header buffer that has been sent. */
  ghost function SentHeader(e: Enc): (r: seq<Byte>)
    requires Valid(e)
  {
    e.buf[..if e.pos < HEADER then e.pos else HEADER]
  }

  /** Everything sent so far: the line end the first chunk does without, whole chunks `cs`,
      the sent part of the header buffer and the sent part `cur` of the announced chunk. */
  ghost predicate OnWire(e: Enc, wire: seq<Byte>, cs: seq<Chunk>, cur: seq<Byte>) {
    && Valid(e) && OurChunks(cs)
    && |cur| == (if e.pos > HEADER then e.pos - HEADER else 0)
    && Placed(wire, Lead(cs), SentHeader(e), cur)
  }

  ghost predicate Placed(wire: seq<Byte>, lead: seq<Byte>, head: seq<Byte>, cur: seq<Byte>) {
    CRLF + wire == lead + head + cur
  }

  lemma PlaceHeader(wire: seq<Byte>, lead: seq<Byte>, head: seq<Byte>, cur: seq<Byte>, more: seq<Byte>)
    requires Placed(wire, lead, head, cur) && (cur == [] || more == [])
    ensures Placed(wire + more, lead, head + more, cur)
  {
    Assoc(CRLF, wire, more);
    Assoc(lead, head, more);
    if cur == [] {
      assert lead + head + cur == lead + head;
    } else {
      assert wire + more == wire && head + more == head;
    }
  }

  lemma PlaceData(wire: seq<Byte>, lead: seq<Byte>, head: seq<Byte>, cur: seq<Byte>, more: seq<Byte>)
    requires Placed(wire, lead, head, cur)
    ensures Placed(wire + more, lead, head, cur + more)
    ensures Placed(wire + more, lead + head + (cur + more), [], [])
  {
    Assoc(CRLF, wire, more);
    Assoc(lead + head, cur, more);
    assert lead + head + (cur + more) + [] + [] == lead + head + (cur + more);
  }

  /** What a plan sends follows what has been sent of the header buffer. */
  lemma PlanFollows(e: Enc, offered: nat, eof: bool, k: nat)
    requires Valid(e) && Legal(e, offered, eof)
    ensures var p, r := Stream(e, offered, eof), SendPlan(e, offered, eof, k);
            if p.any then
              && e.pos <= r.enc.pos <= HEADER == |r.enc.buf|
              && r.wire == r.enc.buf[e.pos..r.enc.pos] && r.enc.buf[..e.pos] == e.buf[..e.pos]
            else r == Sent(e, [], true)
  {
    var p := Stream(e, offered, eof);
    assert p.enc.pos == e.pos && |p.enc.buf| == HEADER;
    if p.any {
      assert p.from == e.pos && e.pos + p.size <= HEADER && p.enc.buf[..e.pos] == e.buf[..e.pos];
      assert Advance(p.enc, Min(k, p.size)).pos == e.pos + Min(k, p.size);
    }
  }

  lemma PlanHeader(e: Enc, offered: nat, eof: bool, k: nat)
    requires Valid(e) && Legal(e, offered, eof)
    ensures var r := SendPlan(e, offered, eof, k);
            && Valid(r.enc) && SentHeader(r.enc) == SentHeader(e) + r.wire
            && (if e.pos > HEADER then r.enc.pos == e.pos && r.wire == [] else r.enc.pos <= HEADER)
  {
    var r := SendPlan(e, offered, eof, k);
    assert Valid(r.enc) by { PlanKeeps(e, offered, eof, k); }
    PlanFollows(e, offered, eof, k);
    if Stream(e, offered, eof).any {
      SplitAt(r.enc.buf, e.pos, r.enc.pos);
    }
  }

  lemma SplitAt(b: seq<Byte>, i: nat, j: nat)
    requires i <= j <= |b|
    ensures b[..j] == b[..i] + b[i..j]
  {
  }

  lemma PlanOnWire(e: Enc, offered: nat, eof: bool, k: nat, wire: seq<Byte>, cs: seq<Chunk>, cur: seq<Byte>)
    requires OnWire(e, wire, cs, cur) && Legal(e, offered, eof)
    ensures var r := SendPlan(e, offered, eof, k); OnWire(r.enc, wire + r.wire, cs, cur)
  {
    PlanHeader(e, offered, eof, k);
    PlaceHeader(wire, Lead(cs), SentHeader(e), cur, SendPlan(e, offered, eof, k).wire);
  }

  /** The chunks, and the part of a chunk, behind the data octets `more`. */
  ghost function NextChunks(e: Enc, all: bool, cs: seq<Chunk>, cur: seq<Byte>): (r: (seq<Chunk>, seq<Byte>)) {
    if all then (cs + [Chunk(Hex4(e.chunkSize), cur)], []) else (cs, cur)
  }

  lemma NextChunksCarry(e: Enc, all: bool, cs: seq<Chunk>, cur: seq<Byte>)
    ensures var (cs', cur') := NextChunks(e, all, cs, cur);
            && Payload(cs') + cur' == Payload(cs) + cur
            && Lead(cs') == if all then Lead(cs) + (CRLF + Hex4(e.chunkSize) + CRLF) + cur else Lead(cs)
  {
    var c := Chunk(Hex4(e.chunkSize), cur);
    ChunksTextAppend(cs, c);
    assert (cs + [c])[..|cs|] == cs;
    assert Payload(cs) + cur + [] == Payload(cs) + cur;
  }

  lemma DataOnWire(e: Enc, data: seq<Byte>, n: nat, k: nat, wire: seq<Byte>, cs: seq<Chunk>, cur: seq<Byte>)
    requires OnWire(e, wire, cs, cur)
    requires !e.final && 0 < Left(e) == n <= |data| && e.pos >= HEADER
    ensures var r := SendData(e, data, n, k);
            var (cs', cur') := NextChunks(e, r.all, cs, cur + r.wire);
            OnWire(r.enc, wire + r.wire, cs', cur')
  {
    DataKeeps(e, data, n, k);
    var r := SendData(e, data, n, k);
    var more := cur + r.wire;
    NextChunksCarry(e, r.all, cs, more);
    HeaderSent(e);
    PlaceData(wire, Lead(cs), e.buf, cur, r.wire);
    if r.all {
      var c := Chunk(Hex4(e.chunkSize), more);
      assert |more| == e.chunkSize;
      assert OurChunks(cs + [c]);
      assert SentHeader(r.enc) == [];
    } else {
      HeaderSent(r.enc);
    }
  }

  lemma HeaderSent(e: Enc)
    requires Valid(e) && e.pos >= HEADER
    ensures SentHeader(e) == e.buf == CRLF + Hex4(e.chunkSize) + CRLF
  {
  }

  lemma ChunkOnWire(e: Enc, data: seq<Byte>, eof: bool, k0: nat, k1: nat,
                    wire: seq<Byte>, cs: seq<Chunk>, cur: seq<Byte>)
    returns (cs': seq<Chunk>, cur': seq<Byte>)
    requires OnWire(e, wire, cs, cur) && Legal(e, |data|, eof)
    ensures var w := WriteChunk(e, data, eof, k0, k1);
            && OnWire(w.enc, wire + w.wire, cs', cur')
            && Payload(cs') + cur' == Payload(cs) + cur + data[..w.accepted]
  {
    PlanKeeps(e, |data|, eof, k0);
    PlanOnWire(e, |data|, eof, k0, wire, cs, cur);
    var n := ChunkOf(e, |data|, eof);
    var h := SendPlan(e, |data|, eof, k0);
    if !h.all || n == 0 {
      cs', cur' := cs, cur;
      assert Payload(cs) + cur + data[..0] == Payload(cs) + cur;
    } else {
      DataKeeps(h.enc, data, n, k1);
      DataOnWire(h.enc, data, n, k1, wire + h.wire, cs, cur);
      var d := SendData(h.enc, data, n, k1);
      var next := NextChunks(h.enc, d.all, cs, cur + d.wire);
      cs', cur' := next.0, next.1;
      NextChunksCarry(h.enc, d.all, cs, cur + d.wire);
      Assoc(Payload(cs), cur, d.wire);
      Assoc(wire, h.wire, d.wire);
      assert data[..|d.wire|] == d.wire;
    }
  }

  /** One call of the write path keeps the wire in step with the data accepted. */
  lemma WriteOnWire(e: Enc, data: seq<Byte>, eof: bool, room: (nat, nat, nat),
                    wire: seq<Byte>, cs: seq<Chunk>, cur: seq<Byte>)
    returns (cs': seq<Chunk>, cur': seq<Byte>)
    requires OnWire(e, wire, cs, cur) && Legal(e, |data|, eof)
    ensures var w := WriteBody(e, data, eof, room);
            && OnWire(w.enc, wire + w.wire, cs', cur')
            && Payload(cs') + cur' == Payload(cs) + cur + data[..w.accepted]
  {
    cs', cur' := ChunkOnWire(e, data, eof, room.0, room.1, wire, cs, cur);
    var c := WriteChunk(e, data, eof, room.0, room.1);
    if c.all {
      var cwf := if ChunkOf(e, |data|, eof) == |data| then eof else false;
      PlanOnWire(c.enc, 0, cwf, room.2, wire + c.wire, cs', cur');
      Assoc(wire, c.wire, SendPlan(c.enc, 0, cwf, room.2).wire);
    }
  }
}
