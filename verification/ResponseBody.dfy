/** Whole runs of the chunked response body: a producer offers a stream in any way that never
    takes an offer back, the socket takes any part of each write. */
module ResponseBody {
  import opened Octets
  import opened Sequences
  import opened ChunkedGrammar
  import Decoder = ChunkedDecoder
  import Encoder = ChunkedEncoder

  /** One write call: the producer offers the stream up to `end` (and its end, if `eof`); the
      socket has `room` for the three parts of the write. */
  datatype Call = Call(end: nat, eof: bool, room: (nat, nat, nat))

  /** A producer of the stream `data`: an offer never shrinks, the end of the stream is only
      flagged with its last octets, and stays flagged. */
  ghost predicate Producer(data: seq<Byte>, calls: seq<Call>) {
    && (forall i :: 0 <= i < |calls| ==> calls[i].end <= |data| && (calls[i].eof ==> calls[i].end == |data|))
    && (forall i, j :: 0 <= i < j < |calls| ==> calls[i].end <= calls[j].end && (calls[i].eof ==> calls[j].eof))
  }

  /** The encoder, all octets the socket has taken, and how much data has been accepted. */
  datatype Conn = Conn(enc: Encoder.Enc, wire: seq<Byte>, accepted: nat)

  /** What earlier offers leave behind. */
  ghost predicate Consistent(data: seq<Byte>, calls: seq<Call>, s: Conn) {
    && Encoder.Valid(s.enc)
    && s.accepted + Encoder.Left(s.enc) <= (if calls == [] then 0 else calls[|calls| - 1].end) <= |data|
    && (s.enc.final ==> calls != [] && calls[|calls| - 1].eof && s.accepted == |data|)
  }

  ghost function Write(data: seq<Byte>, s: Conn, c: Call): (r: Conn)
    requires s.accepted <= c.end <= |data|
    requires Encoder.Valid(s.enc) && Encoder.Legal(s.enc, c.end - s.accepted, c.eof)
  {
    var w := Encoder.WriteBody(s.enc, data[s.accepted..c.end], c.eof, c.room);
    Conn(w.enc, s.wire + w.wire, s.accepted + w.accepted)
  }

  lemma PrefixProducer(data: seq<Byte>, calls: seq<Call>, n: nat)
    requires Producer(data, calls) && n <= |calls|
    ensures Producer(data, calls[..n])
  {
  }

  /** The connection after a list of write calls. */
  ghost function Run(data: seq<Byte>, calls: seq<Call>): (s: Conn)
    requires Producer(data, calls)
    ensures Consistent(data, calls, s)
    decreases |calls|
  {
    if calls == [] then Conn(Encoder.START, [], 0)
    else
      hide Producer, Consistent, Write, Encoder.Legal, Encoder.Valid;
      var n := |calls| - 1;
      PrefixProducer(data, calls, n);
      var s := Run(data, calls[..n]);
      WriteConsistent(data, calls, s);
      Write(data, s, calls[n])
  }

  lemma WriteConsistent(data: seq<Byte>, calls: seq<Call>, s: Conn)
    requires Producer(data, calls) && calls != []
    requires Consistent(data, calls[..|calls| - 1], s)
    ensures var c := calls[|calls| - 1];
            && s.accepted <= c.end <= |data|
            && Encoder.Legal(s.enc, c.end - s.accepted, c.eof)
            && Consistent(data, calls, Write(data, s, c))
  {
    var n := |calls| - 1;
    if n > 0 {
      assert calls[..n][n - 1] == calls[n - 1];
    }
    var c := calls[n];
    WriteKeeps(s.enc, data[s.accepted..c.end], c.eof, c.room);
  }

  lemma WriteKeeps(e: Encoder.Enc, data: seq<Byte>, eof: bool, room: (nat, nat, nat))
    requires Encoder.Valid(e) && Encoder.Legal(e, |data|, eof)
    ensures var w := Encoder.WriteBody(e, data, eof, room);
            && w.accepted + Encoder.Left(w.enc) <= |data|
            && (w.enc.final ==> eof && w.accepted == |data|)
  {
    Encoder.ChunkKeeps(e, data, eof, room.0, room.1);
    var c := Encoder.WriteChunk(e, data, eof, room.0, room.1);
    if c.all {
      var cwf := if Encoder.ChunkOf(e, |data|, eof) == |data| then eof else false;
      Encoder.PlanKeeps(c.enc, 0, cwf, room.2);
    }
  }

  /** The wire holds whole chunks, part of a header and part of a chunk, and the data in them is
      exactly what has been accepted. */
  ghost predicate Described(data: seq<Byte>, s: Conn, cs: seq<Chunk>, cur: seq<Byte>) {
    && Encoder.OnWire(s.enc, s.wire, cs, cur)
    && s.accepted <= |data| && Payload(cs) + cur == data[..s.accepted]
  }

  lemma {:induction false} RunDescribed(data: seq<Byte>, calls: seq<Call>) returns (cs: seq<Chunk>, cur: seq<Byte>)
    requires Producer(data, calls)
    ensures Described(data, Run(data, calls), cs, cur)
    decreases |calls|
  {
    hide Described, Consistent, Write;
    if calls == [] {
      cs, cur := [], [];
      StartDescribed(data);
    } else {
      var n := |calls| - 1;
      cs, cur := RunDescribed(data, calls[..n]);
      var s := Run(data, calls[..n]);
      WriteConsistent(data, calls, s);
      cs, cur := CallDescribed(data, s, calls[n], cs, cur);
    }
  }

  lemma StartDescribed(data: seq<Byte>)
    ensures Described(data, Conn(Encoder.START, [], 0), [], [])
  {
    assert CRLF + [] == CRLF;
    assert [] + Encoder.START.buf[..2] + [] == CRLF;
  }

  lemma CallDescribed(data: seq<Byte>, s: Conn, c: Call, cs: seq<Chunk>, cur: seq<Byte>)
    returns (cs': seq<Chunk>, cur': seq<Byte>)
    requires s.accepted <= c.end <= |data|
    requires Described(data, s, cs, cur) && Encoder.Legal(s.enc, c.end - s.accepted, c.eof)
    ensures Described(data, Write(data, s, c), cs', cur')
  {
    var offer := data[s.accepted..c.end];
    cs', cur' := Encoder.WriteOnWire(s.enc, offer, c.eof, c.room, s.wire, cs, cur);
    JoinOffer(data, s.accepted, c.end, Encoder.WriteBody(s.enc, offer, c.eof, c.room).accepted);
  }

  lemma JoinOffer(data: seq<Byte>, i: nat, end: nat, n: nat)
    requires i + n <= end <= |data|
    ensures data[..i] + data[i..end][..n] == data[..i + n]
  {
    assert data[i..end][..n] == data[i..i + n];
    Encoder.SplitAt(data, i, i + n);
  }

  // ---------------------------------------------------------------- decoding what is on the wire

  /** The decoder behind a chunk's data; the line end it waits for is the one the encoder puts in
      front of the next chunk. */
  const BEHIND := Decoder.Dec(Decoder.CR1, false, 0)

  lemma FeedBehind(wire: seq<Byte>)
    ensures Decoder.Feed(BEHIND, CRLF + wire).out == Decoder.Feed(Decoder.START, wire).out
    ensures Decoder.Feed(BEHIND, CRLF + wire).status == Decoder.Feed(Decoder.START, wire).status
  {
    Decoder.FeedLineEnd(BEHIND);
    Decoder.FeedConcat(BEHIND, CRLF, wire);
  }

  lemma FeedHeader(n: nat)
    requires 1 <= n <= Encoder.MAX_OFFER
    ensures Decoder.Feed(BEHIND, CRLF + Encoder.Hex4(n) + CRLF)
            == Decoder.Outcome(Decoder.Dec(Decoder.DATA, false, n), [], Decoder.More, 8)
  {
    var h := Encoder.Hex4(n);
    Encoder.Hex4Value(n);
    Decoder.FeedLineEnd(BEHIND);
    Decoder.FeedSize(0, h);
    Decoder.FeedConcat(BEHIND, CRLF, h + CRLF);
    Assoc(CRLF, h, CRLF);
  }

  lemma {:induction false} FeedLead(cs: seq<Chunk>)
    requires Encoder.OurChunks(cs)
    ensures Decoder.Feed(BEHIND, Encoder.Lead(cs))
            == Decoder.Outcome(BEHIND, Payload(cs), Decoder.More, |Encoder.Lead(cs)|)
    decreases |cs|
  {
    if cs != [] {
      var k := |cs| - 1;
      FeedLead(cs[..k]);
      FeedLeadChunk(Encoder.Lead(cs[..k]), Payload(cs[..k]), cs[k]);
      assert cs == cs[..k] + [cs[k]];
      ChunksTextAppend(cs[..k], cs[k]);
    }
  }

  lemma FeedLeadChunk(lead: seq<Byte>, out: seq<Byte>, c: Chunk)
    requires Encoder.OurChunks([c])
    requires Decoder.Feed(BEHIND, lead) == Decoder.Outcome(BEHIND, out, Decoder.More, |lead|)
    ensures var text := lead + (CRLF + c.size + CRLF) + c.data;
            Decoder.Feed(BEHIND, text) == Decoder.Outcome(BEHIND, out + c.data, Decoder.More, |text|)
  {
    assert Encoder.OurChunks([c]) && [c][0] == c;
    hide Decoder.Feed, Encoder.Hex4;
    var n := |c.data|;
    var head := CRLF + c.size + CRLF;
    var inData := Decoder.Dec(Decoder.DATA, false, n);
    FeedHeader(n);
    Decoder.FeedConcat(BEHIND, lead, head);
    assert Decoder.Feed(BEHIND, lead + head) == Decoder.Outcome(inData, out, Decoder.More, |lead + head|) by {
      assert out + [] == out;
    }
    Decoder.FeedData(inData, c.data);
    Decoder.FeedConcat(BEHIND, lead + head, c.data);
  }

  /** A part of an input that yields nothing yields nothing. */
  lemma FeedSilentPrefix(d: Decoder.Dec, s: seq<Byte>, k: nat)
    requires k <= |s|
    requires var r := Decoder.Feed(d, s);
             r.out == [] && r.read == |s| && r.status in {Decoder.More, Decoder.Done}
    ensures var r := Decoder.Feed(d, s[..k]);
            r.out == [] && (k < |s| ==> r.status == Decoder.More)
  {
    assert s == s[..k] + s[k..];
    Decoder.FeedConcat(d, s[..k], s[k..]);
    Decoder.FeedReadsInput(d, s[..k]);
  }

  lemma FeedLast()
    ensures Decoder.Feed(BEHIND, CRLF + Encoder.LAST_CHUNK)
            == Decoder.Outcome(Decoder.Dec(Decoder.LF1, true, 0), [], Decoder.Done, 7)
  {
    ZeroIsLast();
    hide Decoder.Feed;
    var inLast := Decoder.Dec(Decoder.DATA, true, 0);
    Decoder.FeedLineEnd(BEHIND);
    Decoder.FeedSize(0, ZERO);
    Decoder.FeedConcat(BEHIND, CRLF, ZERO + CRLF);
    var head := CRLF + (ZERO + CRLF);
    assert Decoder.Feed(BEHIND, head) == Decoder.Outcome(inLast, [], Decoder.More, 5);
    Decoder.FeedLineEnd(inLast);
    Decoder.FeedConcat(BEHIND, head, CRLF);
    assert head + CRLF == CRLF + Encoder.LAST_CHUNK;
  }

  const ZERO: seq<Byte> := [48]

  lemma ZeroIsLast()
    ensures AllHex(ZERO) && HexAcc(0, ZERO) == 0
  {
    assert HexAcc(0, ZERO) == HexAcc(0, ZERO[1..]) == 0;
  }

  /** What a receiver has decoded of a header buffer and a part of the announced chunk. */
  lemma FeedPart(e: Encoder.Enc, cur: seq<Byte>)
    requires Encoder.Valid(e) && |cur| == (if e.pos > Encoder.HEADER then e.pos - Encoder.HEADER else 0)
    ensures var r := Decoder.Feed(BEHIND, Encoder.SentHeader(e) + cur);
            && r.out == cur
            && r.status == if Encoder.IsComplete(e) then Decoder.Done else Decoder.More
  {
    hide Decoder.Feed;
    var head := Encoder.SentHeader(e);
    if e.final {
      assert e.buf[..7] == CRLF + Encoder.LAST_CHUNK;
      FeedLast();
      FeedSilentPrefix(BEHIND, e.buf[..7], e.pos);
      assert e.buf[..7][..e.pos] == head + cur;
      assert e.buf[..7][..7] == e.buf[..7];
    } else if e.prepared {
      FeedHeader(e.chunkSize);
      if e.pos >= Encoder.HEADER {
        Encoder.HeaderSent(e);
        Decoder.FeedData(Decoder.Dec(Decoder.DATA, false, e.chunkSize), cur);
        Decoder.FeedConcat(BEHIND, head, cur);
      } else {
        FeedSilentPrefix(BEHIND, e.buf, e.pos);
        assert head + cur == e.buf[..e.pos];
      }
    } else {
      Decoder.FeedLineEnd(BEHIND);
      FeedSilentPrefix(BEHIND, CRLF, e.pos);
      assert head + cur == CRLF[..e.pos];
      assert CRLF[..2] == CRLF;
    }
  }

  /** A receiver that decodes what is on the wire has exactly the data in it, and knows the body to be
      complete just when the encoder does. */
  lemma WireDecodes(e: Encoder.Enc, wire: seq<Byte>, cs: seq<Chunk>, cur: seq<Byte>)
    requires Encoder.OnWire(e, wire, cs, cur)
    ensures var r := Decoder.Feed(Decoder.START, wire);
            && r.out == Payload(cs) + cur
            && r.status == if Encoder.IsComplete(e) then Decoder.Done else Decoder.More
  {
    var head := Encoder.SentHeader(e);
    FeedBehind(wire);
    FeedLead(cs);
    FeedPart(e, cur);
    Decoder.FeedConcat(BEHIND, Encoder.Lead(cs), head + cur);
    Assoc(Encoder.Lead(cs), head, cur);
  }

  /** A receiver that decodes what has been sent so far has exactly the data accepted so far,
      whatever the offers and whatever the socket took of each write; and it knows the body to
      be complete just when the encoder does. */
  lemma ReceiverHasAcceptedData(data: seq<Byte>, calls: seq<Call>)
    requires Producer(data, calls)
    ensures var s := Run(data, calls);
            var r := Decoder.Feed(Decoder.START, s.wire);
            && s.accepted <= |data| && r.out == data[..s.accepted]
            && r.status == if Encoder.IsComplete(s.enc) then Decoder.Done else Decoder.More
  {
    var cs, cur := RunDescribed(data, calls);
    WireDecodes(Run(data, calls).enc, Run(data, calls).wire, cs, cur);
  }

  // ---------------------------------------------------------------- the wire is an encoding

  /** The rest of a stream in chunks of the largest size. */
  ghost function Split(data: seq<Byte>): (cs: seq<Chunk>)
    ensures Encoder.OurChunks(cs)
    decreases |data|
  {
    if data == [] then []
    else
      var n := if |data| > Encoder.MAX_OFFER then Encoder.MAX_OFFER else |data|;
      [Chunk(Encoder.Hex4(n), data[..n])] + Split(data[n..])
  }

  lemma {:induction false} SplitPayload(data: seq<Byte>)
    ensures Payload(Split(data)) == data
    decreases |data|
  {
    if data != [] {
      var n := if |data| > Encoder.MAX_OFFER then Encoder.MAX_OFFER else |data|;
      SplitPayload(data[n..]);
      assert Split(data)[1..] == Split(data[n..]);
      assert data == data[..n] + data[n..];
    }
  }

  lemma {:induction false} PayloadConcat(cs: seq<Chunk>, ds: seq<Chunk>)
    ensures Payload(cs + ds) == Payload(cs) + Payload(ds)
    ensures ChunksText(cs + ds) == ChunksText(cs) + ChunksText(ds)
    decreases |ds|
  {
    if ds == [] {
      assert cs + ds == cs;
    } else {
      var k := |ds| - 1;
      PayloadConcat(cs, ds[..k]);
      ChunksTextAppend(cs + ds[..k], ds[k]);
      ChunksTextAppend(ds[..k], ds[k]);
      assert ds[..k] + [ds[k]] == ds && cs + ds[..k] + [ds[k]] == cs + ds;
      Assoc(Payload(cs), Payload(ds[..k]), ds[k].data);
      Assoc(ChunksText(cs), ChunksText(ds[..k]), ChunkText(ds[k]));
    }
  }

  /** A whole body seen from behind some of its chunks. */
  lemma BodyBehind(cs: seq<Chunk>, ds: seq<Chunk>)
    ensures CRLF + Body(cs + ds, ZERO) == Encoder.Lead(cs) + (CRLF + ChunksText(ds) + Encoder.LAST_CHUNK)
  {
    PayloadConcat(cs, ds);
    Encoder.LeadText(cs);
    hide Encoder.Lead, ChunksText;
    var a, b := ChunksText(cs), ChunksText(ds);
    assert Body(cs + ds, ZERO) == a + (b + Encoder.LAST_CHUNK);
    Assoc(CRLF, a, b + Encoder.LAST_CHUNK);
    Assoc(Encoder.Lead(cs), CRLF, b + Encoder.LAST_CHUNK);
    Assoc(CRLF, b, Encoder.LAST_CHUNK);
  }

  lemma PrefixOf(wire: seq<Byte>, body: seq<Byte>, lead: seq<Byte>, part: seq<Byte>, rest: seq<Byte>)
    requires CRLF + wire == lead + part && CRLF + body == lead + rest && part <= rest
    ensures wire <= body
  {
    assert lead + part <= lead + rest;
    assert (CRLF + wire)[2..] == wire && (CRLF + body)[2..] == body;
  }

  /** Chunks that finish the encoding of the stream. */
  lemma Completion(data: seq<Byte>, s: Conn, cs: seq<Chunk>, cur: seq<Byte>) returns (all: seq<Chunk>)
    requires Described(data, s, cs, cur)
    requires s.accepted + Encoder.Left(s.enc) <= |data| && (s.enc.final ==> s.accepted == |data|)
    ensures Encoder.OurChunks(all) && Payload(all) == data && s.wire <= Body(all, ZERO)
    ensures Encoder.IsComplete(s.enc) ==> s.wire == Body(all, ZERO)
  {
    var head := Encoder.SentHeader(s.enc);
    Assoc(Encoder.Lead(cs), head, cur);
    var ds := MissingChunks(data, s, cs, cur);
    PayloadConcat(cs, ds);
    BodyBehind(cs, ds);
    all := cs + ds;
    PrefixOf(s.wire, Body(all, ZERO), Encoder.Lead(cs), head + cur, CRLF + ChunksText(ds) + Encoder.LAST_CHUNK);
    if Encoder.IsComplete(s.enc) {
      assert |CRLF + s.wire| == |CRLF + Body(all, ZERO)|;
    }
  }

  /** What is left of the announced chunk, if there is one, and then chunks for the rest. */
  lemma MissingChunks(data: seq<Byte>, s: Conn, cs: seq<Chunk>, cur: seq<Byte>) returns (ds: seq<Chunk>)
    requires Described(data, s, cs, cur)
    requires s.accepted + Encoder.Left(s.enc) <= |data| && (s.enc.final ==> s.accepted == |data|)
    ensures Encoder.OurChunks(ds) && Payload(cs) + Payload(ds) == data
    ensures Encoder.SentHeader(s.enc) + cur <= CRLF + ChunksText(ds) + Encoder.LAST_CHUNK
    ensures s.enc.final ==> ds == []
  {
    if s.enc.prepared {
      ds := MissingPrepared(data, s, cs, cur);
    } else {
      ds := Split(data[s.accepted..]);
      SplitPayload(data[s.accepted..]);
      assert data == data[..s.accepted] + data[s.accepted..] && Payload(cs) + cur == Payload(cs);
      HeaderUnprepared(s.enc, cur, ChunksText(ds) + Encoder.LAST_CHUNK);
      Assoc(CRLF, ChunksText(ds), Encoder.LAST_CHUNK);
    }
  }

  lemma MissingPrepared(data: seq<Byte>, s: Conn, cs: seq<Chunk>, cur: seq<Byte>) returns (ds: seq<Chunk>)
    requires Described(data, s, cs, cur)
    requires s.accepted + Encoder.Left(s.enc) <= |data| && (s.enc.final ==> s.accepted == |data|)
    requires s.enc.prepared
    ensures Encoder.OurChunks(ds) && Payload(cs) + Payload(ds) == data
    ensures Encoder.SentHeader(s.enc) + cur <= CRLF + ChunksText(ds) + Encoder.LAST_CHUNK
    ensures s.enc.final ==> ds == []
  {
    var n := s.accepted + Encoder.Left(s.enc);
    var es := Split(data[n..]);
    var c := Chunk(Encoder.Hex4(s.enc.chunkSize), cur + data[s.accepted..n]);
    ds := [c] + es;
    assert ds[1..] == es;
    assert Encoder.OurChunks(ds) by {
      assert |c.data| == s.enc.chunkSize;
    }
    assert Payload(cs) + Payload(ds) == data by {
      SplitPayload(data[n..]);
      FinishPayload(data, Payload(cs), cur, s.accepted, n);
    }
    HeaderInChunk(s.enc, cur, c, ChunksText(es) + Encoder.LAST_CHUNK);
    FinishText(ChunkText(c), ChunksText(es));
  }

  lemma FinishPayload(data: seq<Byte>, p: seq<Byte>, cur: seq<Byte>, i: nat, n: nat)
    requires i <= n <= |data| && p + cur == data[..i]
    ensures p + ((cur + data[i..n]) + data[n..]) == data
  {
    Assoc(p, cur, data[i..n]);
    Assoc(p, cur + data[i..n], data[n..]);
    Encoder.SplitAt(data, i, n);
    assert data == data[..n] + data[n..];
  }

  lemma FinishText(a: seq<Byte>, b: seq<Byte>)
    ensures CRLF + a + (b + Encoder.LAST_CHUNK) == CRLF + (a + b) + Encoder.LAST_CHUNK
  {
    Assoc(CRLF, a, b);
    Assoc(CRLF + a, b, Encoder.LAST_CHUNK);
  }

  lemma HeaderInChunk(e: Encoder.Enc, cur: seq<Byte>, c: Chunk, rest: seq<Byte>)
    requires Encoder.Valid(e) && e.prepared && !e.final
    requires |cur| == (if e.pos > Encoder.HEADER then e.pos - Encoder.HEADER else 0)
    requires c.size == Encoder.Hex4(e.chunkSize) && cur <= c.data
    ensures Encoder.SentHeader(e) + cur <= CRLF + ChunkText(c) + rest
  {
    var t := CRLF + ChunkText(c) + rest;
    assert t == e.buf + (c.data + CRLF + rest);
    if e.pos < Encoder.HEADER {
      assert t[..e.pos] == e.buf[..e.pos];
    }
  }

  lemma HeaderUnprepared(e: Encoder.Enc, cur: seq<Byte>, rest: seq<Byte>)
    requires Encoder.Valid(e) && !e.prepared && cur == []
    requires e.final ==> rest == Encoder.LAST_CHUNK
    ensures Encoder.SentHeader(e) + cur <= CRLF + rest
  {
    if e.final {
      assert e.buf[..7] == CRLF + Encoder.LAST_CHUNK;
      assert e.buf[..7][..e.pos] == e.buf[..e.pos];
    } else {
      assert e.buf[..2][..e.pos] == e.buf[..e.pos];
    }
  }

  /** After any run the octets sent are a prefix of a chunked encoding of the stream; once the
      encoder has finished they are a whole one and all data has been accepted. */
  lemma WireIsEncoding(data: seq<Byte>, calls: seq<Call>)
    requires Producer(data, calls)
    ensures var s := Run(data, calls);
            exists all :: && ValidChunks(all) && Payload(all) == data && s.wire <= Body(all, ZERO)
                          && (Encoder.IsComplete(s.enc) ==> s.wire == Body(all, ZERO) && s.accepted == |data|)
  {
    var cs, cur := RunDescribed(data, calls);
    var all := Completion(data, Run(data, calls), cs, cur);
    Encoder.OurChunksValid(all);
  }

  /** Once the response is declared complete, a receiver gets exactly the stream, however the
      network cuts what was sent into fragments. */
  lemma CompleteResponseDecodes(data: seq<Byte>, calls: seq<Call>, parts: seq<seq<Byte>>)
    requires Producer(data, calls) && Encoder.IsComplete(Run(data, calls).enc)
    requires Concat(parts) == Run(data, calls).wire
    ensures var r := Decoder.FeedAll(Decoder.START, parts);
            r.status == Decoder.Done && r.out == data && r.read == |Run(data, calls).wire|
  {
    var s := Run(data, calls);
    Decoder.FragmentationIsInvisible(Decoder.START, parts);
    var cs, cur := RunDescribed(data, calls);
    var all := Completion(data, s, cs, cur);
    Encoder.OurChunksValid(all);
    ZeroIsLast();
    Decoder.DecodesWellFormed(all, ZERO, []);
    assert s.wire + [] == s.wire;
  }

  /** A socket with room for everything makes every call useful: it takes data, or finishes. */
  lemma RoomyCallMakesProgress(e: Encoder.Enc, data: seq<Byte>, eof: bool, room: (nat, nat, nat))
    requires Encoder.Valid(e) && Encoder.Legal(e, |data|, eof)
    requires room.0 >= 8 && room.1 >= Encoder.MAX_OFFER && room.2 >= 8
    ensures var w := Encoder.WriteBody(e, data, eof, room);
            && (data != [] ==> w.accepted > 0)
            && (data == [] && eof ==> Encoder.IsComplete(w.enc))
            && (eof && w.accepted == |data| ==> Encoder.IsComplete(w.enc))
  {
    var n := Encoder.ChunkOf(e, |data|, eof);
    Encoder.PlanKeeps(e, |data|, eof, room.0);
    var h := Encoder.SendPlan(e, |data|, eof, room.0);
    assert h.all;
    if n > 0 {
      Encoder.DataKeeps(h.enc, data, n, room.1);
    }
  }

  /** Offered just what the announced chunk lacks, as the end of the stream, such a socket makes an end of it. */
  lemma LastCallFinishes(e: Encoder.Enc, data: seq<Byte>, room: (nat, nat, nat))
    requires Encoder.Valid(e) && |data| == Encoder.Left(e)
    requires room.0 >= 8 && room.1 >= Encoder.MAX_OFFER && room.2 >= 8
    ensures Encoder.Legal(e, |data|, true)
    ensures var w := Encoder.WriteBody(e, data, true, room); w.accepted == |data| && Encoder.IsComplete(w.enc)
  {
    RoomyCallMakesProgress(e, data, true, room);
    Encoder.PlanKeeps(e, |data|, true, room.0);
    var h := Encoder.SendPlan(e, |data|, true, room.0);
    if Encoder.ChunkOf(e, |data|, true) > 0 { Encoder.DataKeeps(h.enc, data, |data|, room.1); }
  }
}
