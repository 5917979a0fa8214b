/** The encoder as an object, the socket it feeds, and the server's write path, each proved to do
    what the functions of `ChunkedEncoder` say. */
module ResponseWriter {
  import opened Octets
  import opened Sequences
  import opened ChunkedGrammar
  import opened ChunkedEncoder

  /** `uint_to_hex_string_zeropad`: digits are written from the last one back. */
  method WriteHex(n: nat, buf: array<Byte>, from: nat, digits: nat)
    requires from + digits <= buf.Length
    modifies buf
    ensures buf[..] == old(buf[..from]) + HexPad(n, digits) + old(buf[from + digits..])
  {
    var m, k := n, digits;
    assert HexPad(n, digits) + [] == HexPad(n, digits);
    while k > 0
      invariant 0 <= k <= digits
      invariant buf[..from + k] == old(buf[..from + k])
      invariant HexPad(m, k) + buf[from + k..from + digits] == HexPad(n, digits)
      invariant buf[from + digits..] == old(buf[from + digits..])
    {
      ghost var tail := buf[from + k..from + digits];
      k := k - 1;
      buf[from + k] := HexDigit(m % 16);
      assert buf[from + k..from + digits] == [HexDigit(m % 16)] + tail;
      Assoc(HexPad(m / 16, k), [HexDigit(m % 16)], tail);
      m := m / 16;
    }
    assert buf[..] == buf[..from] + buf[from..from + digits] + buf[from + digits..];
  }

  /** Copies the octets `s` into the buffer. */
  method Copy(s: seq<Byte>, buf: array<Byte>, from: nat)
    requires from + |s| <= buf.Length
    modifies buf
    ensures buf[..] == old(buf[..from]) + s + old(buf[from + |s|..])
  {
    forall i | 0 <= i < |s| { buf[from + i] := s[i]; }
  }

  class Encoder {
    var final: bool
    var prepared: bool
    var chunkSize: nat
    var pos: nat
    const buf: array<Byte>

    ghost function Fields(): (r: Enc)
      reads this, buf
    {
      Enc(final, prepared, chunkSize, pos, buf[..])
    }

    /** `_nxweb_encode_chunked_init` */
    constructor ()
      ensures Fields() == START && fresh(buf)
    {
      final, prepared, chunkSize, pos := false, false, 0, 2;
      buf := new Byte[8];
      new;
      buf[0], buf[1], buf[2], buf[3], buf[4], buf[5], buf[6], buf[7] := CR, LF, 48, 48, 48, 48, CR, LF;
      assert buf[..] == START.buf;
    }

    /** `_nxweb_encode_chunked_stream`; the precondition holds the assertions it makes. */
    method EncodeStream(offered: nat, eof: bool) returns (plan: Plan)
      requires ChunkedEncoder.Valid(Fields()) && Legal(Fields(), offered, eof)
      modifies this, buf
      ensures plan == Stream(old(Fields()), offered, eof) && Fields() == plan.enc
    {
      var any, from, size, n, e := true, pos, 0, offered, eof;
      if final {
        size := 7 - pos;
      } else if pos <= 2 && !prepared {
        if offered == 0 {
          if eof {
            final := true;
            Copy(LAST_CHUNK, buf, 2);
            size := 7 - pos;
          } else {
            size := 2 - pos;
            any := size != 0;
          }
        } else {
          if n > MAX_OFFER { n := MAX_OFFER; }
          chunkSize := n;
          WriteHex(n, buf, 2, 4);
          size := HEADER - pos;
          e := false;
          prepared := true;
        }
      } else if pos < HEADER {
        if n > chunkSize { n := chunkSize; }
        size := HEADER - pos;
        e := false;
      } else {
        var left := chunkSize - (pos - HEADER);
        if n > left { n := left; }
        any, from, size := false, 0, 0;
        e := false;
      }
      plan := Plan(Enc(final, prepared, chunkSize, pos, buf[..]), any, from, size, n, e);
    }

    /** `_nxweb_encode_chunked_advance` */
    method EncodeAdvance(delta: nat)
      modifies this
      ensures Fields() == Advance(old(Fields()), delta)
    {
      if delta == 0 { return; }
      pos := pos + delta;
      if pos == HEADER + chunkSize {
        pos := 0;
        prepared := false;
      }
    }
  }

  /** The next stream: it takes any part of what it is given. */
  class Socket {
    var sent: seq<Byte>
    var ready: bool
    /** All it has been given. */
    ghost var given: seq<seq<Byte>>

    constructor ()
      ensures sent == [] && ready && given == []
    {
      sent, ready, given := [], true, [];
    }

    method Send(data: seq<Byte>) returns (n: nat)
      modifies this
      ensures n <= |data| && sent == old(sent) + data[..n]
      ensures ready == (old(ready) && n == |data|) && given == old(given) + [data]
    {
      n :| n <= |data|;
      given := given + [data];
      sent := sent + data[..n];
      if n < |data| { ready := false; }
    }
  }

  lemma PlanFits(e: Enc, offered: nat, eof: bool, t: nat)
    requires Valid(e) && Legal(e, offered, eof)
    ensures var p := Stream(e, offered, eof);
            && (p.any ==> p.from + p.size <= |p.enc.buf|)
            && (!p.any ==> SendPlan(e, offered, eof, t) == Sent(p.enc, [], true))
            && (p.any && t <= p.size ==>
                  SendPlan(e, offered, eof, t) == Sent(Advance(p.enc, t), p.enc.buf[p.from..p.from + t], t == p.size))
  {
  }

  lemma SliceOfSlice(b: seq<Byte>, from: nat, size: nat, t: nat)
    requires t <= size && from + size <= |b|
    ensures b[from..from + size][..t] == b[from..from + t]
  {
  }

  /** What a plan gives to the socket. */
  ghost function PlanGives(e: Enc, offered: nat, eof: bool): (r: seq<seq<Byte>>)
    requires Valid(e)
  {
    var p := Stream(e, offered, eof);
    if p.any && p.from + p.size <= |p.enc.buf| then [p.enc.buf[p.from..p.from + p.size]] else []
  }

  /** What the first half of a write gives to the socket: the header, and behind all of it the chunk's data. */
  ghost function ChunkGives(e: Enc, data: seq<Byte>, eof: bool, k: nat): (r: seq<seq<Byte>>)
    requires Valid(e) && Legal(e, |data|, eof)
  {
    var n := ChunkOf(e, |data|, eof);
    PlanGives(e, |data|, eof) + if SendPlan(e, |data|, eof, k).all && 0 < n <= |data| then [data[..n]] else []
  }

  /** What a whole write gives to it: behind all of the chunk, the next header or the end. */
  ghost function WriteGives(e: Enc, data: seq<Byte>, eof: bool, k0: nat, k1: nat): (r: seq<seq<Byte>>)
    requires Valid(e) && Legal(e, |data|, eof)
  {
    var c := WriteChunk(e, data, eof, k0, k1);
    ChunkGives(e, data, eof, k0) + if c.all then PlanGives(c.enc, 0, eof && ChunkOf(e, |data|, eof) == |data|) else []
  }

  /** One part of the write path: what the encoder plans goes out as far as the socket takes it. */
  method SendHeader(enc: Encoder, sock: Socket, offered: nat, eof: bool)
    returns (n: nat, skip: bool, ghost k: nat)
    requires Valid(enc.Fields()) && Legal(enc.Fields(), offered, eof)
    modifies enc, enc.buf, sock
    ensures enc.Fields() == SendPlan(old(enc.Fields()), offered, eof, k).enc
    ensures sock.sent == old(sock.sent) + SendPlan(old(enc.Fields()), offered, eof, k).wire
    ensures skip == !SendPlan(old(enc.Fields()), offered, eof, k).all
    ensures n == ChunkOf(old(enc.Fields()), offered, eof)
    ensures sock.given == old(sock.given) + PlanGives(old(enc.Fields()), offered, eof)
  {
    hide Stream, SendPlan, Advance;
    ghost var e := enc.Fields();
    var plan := enc.EncodeStream(offered, eof);
    PlanFits(e, offered, eof, 0);
    n, skip, k := plan.offered, false, 0;
    if plan.any {
      var text := enc.buf[plan.from..plan.from + plan.size];
      assert text == plan.enc.buf[plan.from..plan.from + plan.size];
      var cbs := sock.Send(text);
      SliceOfSlice(plan.enc.buf, plan.from, plan.size, cbs);
      enc.EncodeAdvance(cbs);
      k := cbs;
      PlanFits(e, offered, eof, k);
      if cbs != plan.size { skip := true; }
    } else {
      assert sock.sent + [] == sock.sent;
    }
  }

  /** The first half of the write path: the header and the chunk's data. */
  method SendChunk(enc: Encoder, sock: Socket, data: seq<Byte>, eof: bool)
    returns (chunk: nat, bytesSent: nat, skip: bool, ghost k0: nat, ghost k1: nat)
    requires Valid(enc.Fields()) && Legal(enc.Fields(), |data|, eof)
    modifies enc, enc.buf, sock
    ensures var w := WriteChunk(old(enc.Fields()), data, eof, k0, k1);
            && enc.Fields() == w.enc && sock.sent == old(sock.sent) + w.wire
            && bytesSent == w.accepted && skip == !w.all
    ensures chunk == ChunkOf(old(enc.Fields()), |data|, eof)
    ensures sock.given == old(sock.given) + ChunkGives(old(enc.Fields()), data, eof, k0)
  {
    hide Stream, PlanGives;
    ghost var e, was := enc.Fields(), sock.sent;
    chunk, skip, k0 := SendHeader(enc, sock, |data|, eof);
    bytesSent, k1 := 0, 0;
    PlanKeeps(e, |data|, eof, k0);
    ghost var h := SendPlan(e, |data|, eof, k0);
    if !skip && chunk > 0 {
      bytesSent := sock.Send(data[..chunk]);
      enc.EncodeAdvance(bytesSent);
      k1 := bytesSent;
      assert data[..chunk][..k1] == data[..k1];
      assert SendData(h.enc, data, chunk, k1) == Sent(enc.Fields(), data[..k1], k1 == chunk);
      Assoc(was, h.wire, data[..k1]);
      if bytesSent != chunk { skip := true; }
    }
  }

  /** The chunking part of `resp_body_in_write_or_sendfile`; without a next stream nothing is written.
      `complete` tells whether it calls `request_complete`. */
  method WriteOrSendfile(enc: Encoder, sock: Socket?, data: seq<Byte>, eof: bool)
    returns (bytesSent: nat, complete: bool, ghost room: (nat, nat, nat))
    requires Valid(enc.Fields()) && Legal(enc.Fields(), |data|, eof)
    modifies enc, enc.buf, sock
    ensures if sock != null && old(sock.ready) then
              var w := WriteBody(old(enc.Fields()), data, eof, room);
              enc.Fields() == w.enc && sock.sent == old(sock.sent) + w.wire && bytesSent == w.accepted
            else enc.Fields() == old(enc.Fields()) && bytesSent == 0 && (sock != null ==> sock.sent == old(sock.sent))
    ensures complete <==> eof && bytesSent == |data| && IsComplete(enc.Fields())
    ensures sock != null && old(sock.ready) ==>
              sock.given == old(sock.given) + WriteGives(old(enc.Fields()), data, eof, room.0, room.1)
  {
    hide Stream, PlanGives, ChunkGives, SendPlan, WriteChunk;
    bytesSent, room := 0, (0, 0, 0);
    if sock != null && sock.ready {
      ghost var e, was := enc.Fields(), sock.sent;
      var chunk, skip;
      ghost var k0, k1, k2 := 0, 0, 0;
      chunk, bytesSent, skip, k0, k1 := SendChunk(enc, sock, data, eof);
      ghost var c := WriteChunk(e, data, eof, k0, k1);
      if !skip {
        var cwf := if chunk == |data| then eof else false;
        var none;
        none, skip, k2 := SendHeader(enc, sock, 0, cwf);
        Assoc(was, c.wire, SendPlan(c.enc, 0, cwf, k2).wire);
      }
      room := (k0, k1, k2);
    }
    complete := eof && bytesSent == |data| && enc.final && enc.pos == 7;
  }
}
