/** A ring buffer feeding the chunk encoder feeding a socket: the response body of a handler that
    writes as it goes. */
module BufferedResponse {
  import opened Octets
  import opened ChunkedGrammar
  import Codec = ChunkedEncoder
  import Decoder = ChunkedDecoder
  import opened ResponseBody
  import Writer = ResponseWriter
  import Ring = RingBuffer

  /** The last write call offered no more than the buffer offers now. */
  ghost predicate Offered(calls: seq<Call>, end: nat, eof: bool) {
    calls != [] ==> calls[|calls| - 1].end <= end && (calls[|calls| - 1].eof ==> eof)
  }

  lemma OfferKept(data: seq<Byte>, calls: seq<Call>, c: Call)
    requires Producer(data, calls) && Offered(calls, c.end, c.eof)
    requires c.end <= |data| && (c.eof ==> c.end == |data|)
    ensures Producer(data, calls + [c])
  {
    var more := calls + [c];
    forall i, j | 0 <= i < j < |more|
      ensures more[i].end <= more[j].end && (more[i].eof ==> more[j].eof)
    {
      if j == |calls| && i < |calls| - 1 {
        assert calls[i].end <= calls[|calls| - 1].end;
      }
    }
  }

  /** Until its end has been offered, a stream may grow. */
  lemma ProducerGrows(data: seq<Byte>, more: seq<Byte>, calls: seq<Call>)
    requires Producer(data, calls)
    requires calls != [] && calls[|calls| - 1].eof ==> more == []
    ensures Producer(data + more, calls)
  {
    if more == [] {
      assert data + more == data;
    }
  }

  lemma RunStep(data: seq<Byte>, calls: seq<Call>, c: Call)
    requires Producer(data, calls) && Producer(data, calls + [c])
    ensures var s := Run(data, calls);
            && s.accepted <= c.end <= |data|
            && Codec.Valid(s.enc) && Codec.Legal(s.enc, c.end - s.accepted, c.eof)
            && Run(data, calls + [c]) == Write(data, s, c)
  {
    assert (calls + [c])[..|calls|] == calls;
    WriteConsistent(data, calls + [c], Run(data, calls));
  }

  lemma RunEmpty(data: seq<Byte>)
    ensures Producer(data, []) && Run(data, []) == Conn(Codec.START, [], 0)
  {
  }

  lemma WriteGrows(data: seq<Byte>, more: seq<Byte>, s: Conn, c: Call)
    requires s.accepted <= c.end <= |data|
    requires Codec.Valid(s.enc) && Codec.Legal(s.enc, c.end - s.accepted, c.eof)
    ensures ResponseBody.Write(data + more, s, c) == ResponseBody.Write(data, s, c)
  {
    hide Codec.WriteBody, Codec.Legal, Codec.Valid;
    assert (data + more)[s.accepted..c.end] == data[s.accepted..c.end];
  }

  /** What is appended to the stream later does not change the past. */
  lemma {:induction false} RunGrows(data: seq<Byte>, more: seq<Byte>, calls: seq<Call>)
    requires Producer(data, calls) && Producer(data + more, calls)
    ensures Run(data + more, calls) == Run(data, calls)
    decreases |calls|
  {
    hide Codec.Legal, Codec.Valid, ResponseBody.Write, ResponseBody.Consistent, Run, Producer;
    if calls == [] {
      RunEmpty(data);
      RunEmpty(data + more);
    } else {
      var n := |calls| - 1;
      PrefixProducer(data, calls, n);
      PrefixProducer(data + more, calls, n);
      RunGrows(data, more, calls[..n]);
      assert calls[..n] + [calls[n]] == calls;
      RunStep(data, calls[..n], calls[n]);
      RunStep(data + more, calls[..n], calls[n]);
      WriteGrows(data, more, Run(data, calls[..n]), calls[n]);
    }
  }

  class Response {
    const rb: Ring.RBuffer
    const enc: Writer.Encoder
    const sock: Writer.Socket
    ghost var calls: seq<Call>

    /** The connection is where a run over everything written so far has brought it. */
    ghost predicate Valid()
      reads this, rb, rb.buf, enc, enc.buf, sock
    {
      && rb.buf != enc.buf
      && rb.Valid()
      && Tracks(rb.stream, calls, Conn(enc.Fields(), sock.sent, rb.taken))
      && Offered(calls, rb.taken + rb.ReadRun(), rb.ReadEof())
    }

    constructor (buf: array<Byte>)
      requires buf.Length > 0
      ensures Valid() && rb.stream == [] && sock.sent == [] && fresh(rb) && fresh(enc) && fresh(sock)
    {
      rb := new Ring.RBuffer(buf);
      enc := new Writer.Encoder();
      sock := new Writer.Socket();
      calls := [];
    }

    method Write(data: seq<Byte>)
      requires Valid() && !rb.eof && |data| <= rb.WriteRoom()
      modifies rb, rb.buf
      ensures Valid() && rb.stream == old(rb.stream) + data
      ensures sock.sent == old(sock.sent)
    {
      rb.Write(data);
      Grow(old(rb.stream), data, calls, Conn(enc.Fields(), sock.sent, rb.taken));
    }

    method End()
      requires Valid()
      modifies rb
      ensures Valid() && rb.eof && rb.stream == old(rb.stream) && sock.sent == old(sock.sent)
    {
      rb.End();
    }

    /** `rbuffer_data_out_do_write` into `resp_body_in_write_or_sendfile`. */
    method DoWrite() returns (complete: bool)
      requires Valid()
      modifies rb, enc, enc.buf, sock, this
      ensures Valid() && rb.stream == old(rb.stream)
      ensures if old(sock.ready) then
                && |calls| == |old(calls)| + 1 && calls[..|old(calls)|] == old(calls)
                && var c := calls[|old(calls)|]; c.end == old(rb.taken + rb.ReadRun()) && c.eof == old(rb.ReadEof())
              else calls == old(calls)
      ensures complete ==> rb.eof && Codec.IsComplete(enc.Fields()) && rb.taken == |rb.stream|
    {
      hide Tracks, Codec.Legal, Codec.Valid, Codec.WriteBody, Ring.Held, Ring.Run, Ring.ReadyRight, Writer.WriteGives;
      var size, eof := rb.ReadRun(), rb.ReadEof();
      var ready := sock.ready;
      ghost var s := Conn(enc.Fields(), sock.sent, rb.taken);
      ghost var stream := rb.stream;
      ghost var end := rb.taken + size;
      Called(stream, calls, s, Call(end, eof, (0, 0, 0)));
      var sent;
      ghost var room;
      sent, complete, room := Writer.WriteOrSendfile(enc, sock, rb.buf[rb.rd..rb.rd + size], eof);
      if ready {
        Called(stream, calls, s, Call(end, eof, room));
        calls := calls + [Call(end, eof, room)];
      }
      rb.Read(sent);
    }
  }

  ghost predicate Tracks(stream: seq<Byte>, calls: seq<Call>, s: Conn) {
    Producer(stream, calls) && Run(stream, calls) == s
  }

  lemma Grow(stream: seq<Byte>, data: seq<Byte>, calls: seq<Call>, s: Conn)
    requires Tracks(stream, calls, s)
    requires calls != [] && calls[|calls| - 1].eof ==> data == []
    ensures Tracks(stream + data, calls, s)
  {
    ProducerGrows(stream, data, calls);
    RunGrows(stream, data, calls);
  }

  lemma Called(stream: seq<Byte>, calls: seq<Call>, s: Conn, c: Call)
    requires Tracks(stream, calls, s) && Offered(calls, c.end, c.eof)
    requires c.end <= |stream| && (c.eof ==> c.end == |stream|)
    ensures s.accepted <= c.end && Codec.Valid(s.enc) && Codec.Legal(s.enc, c.end - s.accepted, c.eof)
    ensures Tracks(stream, calls + [c], ResponseBody.Write(stream, s, c))
  {
    OfferKept(stream, calls, c);
    RunStep(stream, calls, c);
  }

  /** Whatever the handler has written in whatever pieces, whatever the socket took: the peer has
      exactly the octets that left the buffer, and sees the end just when the encoder has put it
      on the wire. */
  lemma PeerHasTakenData(r: Response)
    requires r.Valid()
    ensures var d := Decoder.Feed(Decoder.START, r.sock.sent);
            && r.rb.taken <= |r.rb.stream| && d.out == r.rb.stream[..r.rb.taken]
            && d.status == if Codec.IsComplete(r.enc.Fields()) then Decoder.Done else Decoder.More
  {
    ReceiverHasAcceptedData(r.rb.stream, r.calls);
  }

  /** A finished response reached the peer as the whole stream, however the network cut it. */
  lemma FinishedResponseArrives(r: Response, parts: seq<seq<Byte>>)
    requires r.Valid() && Codec.IsComplete(r.enc.Fields()) && Concat(parts) == r.sock.sent
    ensures var d := Decoder.FeedAll(Decoder.START, parts);
            d.status == Decoder.Done && d.out == r.rb.stream
    ensures r.rb.eof && r.rb.taken == |r.rb.stream|
  {
    CompleteResponseDecodes(r.rb.stream, r.calls, parts);
  }
}
