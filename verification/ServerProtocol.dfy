/** The server side of one HTTP connection: the callbacks of the HSP states, their timers, the ready flags of
    the four streams and the messages, around what `ReplyOrder` says of the texts under way. */
module ServerProtocol {
  import opened Octets
  import opened ReplyOrder
  import RequestBody
  import Codec = ChunkedEncoder

  datatype Timer = KeepAlive | Read | Write

  /** Which timers are armed. */
  datatype Timers = Timers(keepAlive: bool, read: bool, write: bool)

  const NONE := Timers(false, false, false)

  predicate IsSet(ts: Timers, t: Timer) {
    match t
    case KeepAlive => ts.keepAlive
    case Read => ts.read
    case Write => ts.write
  }

  function Put(ts: Timers, t: Timer, on: bool): (r: Timers) {
    match t
    case KeepAlive => ts.(keepAlive := on)
    case Read => ts.(read := on)
    case Write => ts.(write := on)
  }

  /** `nxe_set_timer`, with the assertion it makes. */
  function Set(ts: Timers, t: Timer): (r: Timers)
    requires !IsSet(ts, t)
  {
    Put(ts, t, true)
  }

  /** `nxe_unset_timer` */
  function Unset(ts: Timers, t: Timer): (r: Timers) {
    Put(ts, t, false)
  }

  /** Setting a timer arms that one, unsetting disarms it, and neither touches another. */
  lemma SetOne(ts: Timers, t: Timer, u: Timer)
    ensures !IsSet(ts, t) ==> (IsSet(Set(ts, t), u) <==> u == t || IsSet(ts, u))
    ensures IsSet(Unset(ts, t), u) <==> u != t && IsSet(ts, u)
  {
  }

  /** The timer a state is watched by; a response that is through only waits for its cleanup. */
  function TimersOf(state: State, through: bool): (r: Timers) {
    match state
    case WaitingForRequest => Timers(true, false, false)
    case ReceivingHeaders => Timers(false, true, false)
    case ReceivingBody => Timers(false, true, false)
    case Handling => NONE
    case SendingHeaders => Timers(false, false, !through)
    case SendingBody => Timers(false, false, !through)
  }

  /** `nxd_http_server_proto`: the fields its callbacks work on. */
  datatype Hsp = Hsp(
    line: Line,
    /** Ready flags of `data_in`, `data_out`, `req_body_out` and `resp_body_in`. */
    dataIn: bool, dataOut: bool, reqOut: bool, respIn: bool,
    /** Whether `resp_body_in` and `req_body_out` are connected. */
    producer: bool, reader: bool,
    /** Whether the connection stays open behind the response. */
    keepAlive: bool,
    armed: Timers,
    /** Whether the timer of the current state has run out. */
    fired: bool)

  /** Only the timer of the current state is armed, and it is unless it has run out. */
  ghost predicate TimersRight(h: Hsp) {
    var own := TimersOf(h.line.state, h.line.completes > 0);
    if h.fired then h.armed == NONE != own else h.armed == own
  }

  /** Nobody waits for a wake-up that cannot come, and nothing is written out of turn. */
  ghost predicate ReadyRight(h: Hsp) {
    var state, through := h.line.state, h.line.completes > 0;
    && (state == WaitingForRequest && h.keepAlive ==> h.dataIn)
    && (state == ReceivingHeaders ==> h.dataIn)
    && (state == ReceivingBody ==> if h.reader then h.dataIn || h.reqOut else h.reqOut)
    && (state == SendingHeaders && !through ==> h.dataOut)
    && (state == SendingBody && !through && h.producer ==> h.dataOut || h.respIn)
    && (h.dataOut ==> h.line.sending100 || (Sending(state) && !through))
    && (h.line.sending100 ==> h.dataOut && state in {ReceivingBody, Handling, SendingHeaders} && !through)
    && (h.line.sending100 ==> h.line.rest != [])
    && (h.producer ==> Sending(state) && !through)
    && (through ==> Sending(state))
  }

  ghost predicate Valid(h: Hsp) {
    h.line.completes <= 1 && TimersRight(h) && ReadyRight(h) && Codec.Valid(h.line.enc)
  }

  // ---------------------------------------------------------------- the callbacks

  /** `nxd_http_server_proto_init` and `nxd_http_server_proto_connect` */
  method Connect() returns (h: Hsp)
    ensures Valid(h) && h.line == START && !h.fired && h.armed == TimersOf(WaitingForRequest, false)
    ensures h.dataIn && h.respIn && !h.dataOut && !h.reqOut && !h.producer && !h.reader
  {
    h := Hsp(START, true, false, false, true, false, false, true, Set(NONE, KeepAlive), false);
  }

  /** A timer runs out: the loop has taken it out of its queue before the callback runs. */
  function Expire(h: Hsp, t: Timer): (r: Hsp)
    requires Valid(h) && IsSet(h.armed, t)
    ensures Valid(r) && r.line == h.line
  {
    h.(armed := Unset(h.armed, t), fired := true)
  }

  /** `connect_request_body_out` and `start_receiving_request_body` */
  function ConnectReader(h: Hsp): (r: Hsp)
    requires Valid(h) && !h.reader
    ensures Valid(r) && r.line == h.line && r.fired == h.fired && r.armed == h.armed
    ensures r.reader && r.dataIn
  {
    h.(reader := true, dataIn := true)
  }

  /** `start_sending_response`: refused unless a request is being received or handled. */
  method StartSending(h: Hsp, a: Answer) returns (r: Hsp)
    requires Valid(h)
    ensures Valid(r) && r.line == Respond(h.line, a)
    ensures if h.line.state in {ReceivingHeaders, ReceivingBody, Handling} then r.line.state == SendingHeaders && !r.fired && r.armed == Timers(false, false, true) && r.dataOut && r.keepAlive == a.keep
            else r == h
  {
    if !Receiving(h.line.state) { return h; }
    r := BeginResponse(h, a);
  }

  /** What `start_sending_response` does unless it refuses. */
  method BeginResponse(h: Hsp, a: Answer) returns (r: Hsp)
    requires Receiving(h.line.state) && h.line.completes == 0 && Unset(h.armed, Read) == NONE
    requires h.dataOut == h.line.sending100 && (h.line.sending100 ==> h.line.rest != [])
    ensures Valid(r) && r.line == Respond(h.line, a)
    ensures !r.fired && r.armed == Timers(false, false, true) && r.dataOut && r.keepAlive == a.keep
    ensures r.line.state == SendingHeaders && r.line.raw == a.headers && (!h.line.sending100 ==> r.line.rest == a.headers)
    ensures r.line.bodyless <==> a.head || a.notModified || a.content.Nothing?
    ensures r.producer == (a.out && !a.notModified) && r.dataIn == h.dataIn && r.respIn == h.respIn
  {
    var line := h.line.(state := SendingHeaders, raw := a.headers, enc := Codec.START,
                        rest := if h.line.sending100 then h.line.rest else a.headers,
                        bodyless := Bodyless(a), chunked := InChunks(a));
    r := h.(line := line, armed := Set(Unset(h.armed, Read), Write), fired := false, dataOut := true,
            producer := a.out && !a.notModified, keepAlive := a.keep);
  }

  /** `request_complete`: the reply is through, and a message asks for the cleanup. */
  method RequestComplete(h: Hsp) returns (r: Hsp)
    requires Sending(h.line.state) && h.line.completes == 0 && !h.line.sending100
    requires Unset(h.armed, Write) == NONE && Codec.Valid(h.line.enc)
    ensures Valid(r) && r.line == Finish(h.line) && r.armed == NONE && !r.fired
    ensures !r.producer && !r.reader && !r.dataOut
    ensures r.dataIn == h.dataIn && r.reqOut == h.reqOut && r.respIn == h.respIn && r.keepAlive == h.keepAlive
  {
    var line := h.line.(completes := h.line.completes + 1);
    r := h.(line := line, dataOut := false, armed := Unset(h.armed, Write), fired := false, producer := false, reader := false);
  }

  /** `request_cleanup`, when the message arrives. */
  method Cleanup(h: Hsp) returns (r: Hsp)
    requires Valid(h) && h.line.completes > 0
    ensures Valid(r) && r.line == Next(h.line, Cleaned) && r.line.completes == 0
    ensures r.line.state == WaitingForRequest && !r.line.sending100 && r.line.sent == h.line.sent
    ensures !r.fired && r.armed == TimersOf(WaitingForRequest, false) && r.dataIn == (h.dataIn || h.keepAlive)
    ensures r == h.(line := r.line, dataIn := r.dataIn, armed := r.armed, fired := r.fired)
  {
    var line := h.line.(completes := h.line.completes - 1, state := WaitingForRequest, sending100 := false);
    r := h.(line := line, dataIn := h.dataIn || h.keepAlive, armed := Set(h.armed, KeepAlive), fired := false);
  }

  /** `data_in_do_read` outside a request body. */
  method ReadHeaders(h: Hsp, headers: Headers) returns (r: Hsp)
    requires Valid(h) && h.dataIn && h.line.state != ReceivingBody
    ensures Valid(r) && r.line == Heard(h.line, headers)
    ensures !h.fired || h.line.state == WaitingForRequest ==> !r.fired
    ensures headers.Unacceptable? && h.line.state in {WaitingForRequest, ReceivingHeaders} ==> !r.keepAlive && !r.dataIn
    ensures headers.Partial? && h.line.state == ReceivingHeaders ==> r == h
    ensures h.line.state !in {WaitingForRequest, ReceivingHeaders} ==> r == h
  {
    hide Valid, Heard, HeardMore;
    HeardShape(h.line, headers);
    r := h;
    if h.line.state == WaitingForRequest {
      r := BeginRequest(h);
    }
    if r.line.state == ReceivingHeaders {
      r := ReadMore(r, headers);
    }
  }

  /** The first octets of a request. */
  method BeginRequest(h: Hsp) returns (r: Hsp)
    requires Valid(h) && h.dataIn && h.line.state == WaitingForRequest
    ensures Valid(r) && r.line == h.line.(state := ReceivingHeaders) && !r.fired
    ensures r == h.(line := r.line, armed := Timers(false, true, false), fired := false)
  {
    hide Codec.Valid;
    r := h.(line := h.line.(state := ReceivingHeaders), armed := Set(Unset(h.armed, KeepAlive), Read), fired := false);
  }

  /** The header text is looked at. */
  method ReadMore(h: Hsp, headers: Headers) returns (r: Hsp)
    requires Valid(h) && h.line.state == ReceivingHeaders
    ensures Valid(r) && r.line == HeardMore(h.line, headers)
    ensures !h.fired ==> !r.fired
    ensures headers.Unacceptable? ==> !r.keepAlive && !r.dataIn
    ensures headers.Partial? ==> r == h
  {
    hide Codec.Valid, Receive, Respond;
    match headers {
      case Partial => r := h;
      case Unacceptable(page) =>
        r := h.(armed := Unset(h.armed, Read), dataIn := false);
        r := BeginResponse(r, page);
        r := r.(keepAlive := false);
      case Whole(expect100, request) =>
        r := ReceiveRequest(h, expect100, request);
    }
  }

  /** A request whose headers have arrived. */
  method ReceiveRequest(h: Hsp, expect100: bool, request: RequestBody.Request) returns (r: Hsp)
    requires Valid(h) && h.line.state == ReceivingHeaders
    ensures Valid(r) && r.line == Receive(h.line, Goes(expect100, request), request)
    ensures r.line.state == (if request.chunked || request.length != 0 then ReceivingBody else Handling)
    ensures r.line.sending100 <==> expect100 && request.first == []
    ensures r.reqOut == (r.line.state == ReceivingBody || h.reqOut) && r.dataOut == r.line.sending100
    ensures r.armed == (if r.line.state == ReceivingBody then h.armed else NONE) && r.keepAlive == h.keepAlive
    ensures !r.dataIn && (!h.fired ==> !r.fired) && (h.line.completes == 0 ==> r.line.completes == 0)
  {
    hide Receive, Codec.Valid;
    var go := expect100 && request.first == [];
    ReceiveShape(h.line, go, request);
    var line := Receive(h.line, go, request);
    if line.state == ReceivingBody {
      r := h.(line := line, dataOut := go, dataIn := false, reqOut := true);
    } else {
      r := h.(line := line, dataOut := go, dataIn := false, armed := Unset(h.armed, Read), fired := false);
    }
  }

  /** A call of the reader, and whether the socket may have more afterwards. */
  datatype Reading = Reading(call: RequestBody.Call, more: bool)

  /** `req_body_out_read` */
  method ReadRequestBody(h: Hsp, b: Reading) returns (r: Hsp, eof: bool)
    requires Valid(h) && h.reader
    ensures Valid(r) && r.line == ReadBody(h.line, b.call) && r.reader
    ensures eof == (r.line.state == Handling)
    ensures h.line.state == ReceivingBody && !eof ==>
              var waits := RequestBody.Asks(h.line.body, b.call.size) && !b.more; // the socket was asked and has no more
              !r.fired && r.dataIn == (h.dataIn || waits) && r.reqOut == (h.reqOut && !waits)
    ensures h.line.state == ReceivingBody && eof ==> !r.fired && r.armed == NONE && !r.dataIn && !r.reqOut
    ensures h.line.state != ReceivingBody ==> r == h.(reqOut := false, dataIn := h.dataIn || h.line.state != Handling)
  {
    hide Codec.Valid, RequestBody.Read, RequestBody.Asks;
    if h.line.state == Handling {
      return h.(reqOut := false), true;
    }
    if h.line.state != ReceivingBody {
      return h.(reqOut := false, dataIn := true), false;
    }
    var armed := Unset(h.armed, Read);
    var g := RequestBody.Read(h.line.body, b.call);
    if g.eof {
      return h.(line := h.line.(body := g.body, state := Handling), armed := armed, fired := false, dataIn := false, reqOut := false), true;
    }
    eof := false;
    r := h.(line := h.line.(body := g.body), armed := Set(armed, Read), fired := false);
    if RequestBody.Asks(h.line.body, b.call.size) && !b.more {
      r := r.(reqOut := false, dataIn := true);
    }
  }

  function Reads(readings: seq<Reading>): (es: seq<Event>)
    ensures |es| == |readings|
  {
    seq(|readings|, i requires 0 <= i < |readings| => BodyRead(readings[i].call))
  }

  lemma OneEvent(l: Line, es: seq<Event>)
    requires Codec.Valid(l.enc) && |es| == 1 && (CanAll(l, es) || Can(l, es[0]))
    ensures CanAll(l, es) && Can(l, es[0]) && NextAll(l, es) == Next(l, es[0])
  {
    hide Codec.Valid, Next, Can;
    if Can(l, es[0]) { Nothing(Next(l, es[0]), es[1..]); }
  }

  lemma OneMore(l: Line, es: seq<Event>, i: nat)
    requires i < |es| && Codec.Valid(l.enc) && CanAll(l, es[..i]) && Can(NextAll(l, es[..i]), es[i])
    ensures CanAll(l, es[..i + 1]) && NextAll(l, es[..i + 1]) == Next(NextAll(l, es[..i]), es[i])
  {
    hide Next, Can, Codec.Valid;
    OneEvent(NextAll(l, es[..i]), [es[i]]);
    AllConcat(l, es[..i], [es[i]]);
    assert es[..i] + [es[i]] == es[..i + 1];
  }

  /** `data_in_do_read` in a request body: the reader is called if it is ready, reads as often as it
      likes, and is ready or not afterwards. */
  method PassOn(h: Hsp, readings: seq<Reading>, ready: bool) returns (r: Hsp)
    requires Valid(h) && h.dataIn && h.line.state == ReceivingBody
    ensures Valid(r)
    ensures var es := if h.reader then Reads(readings) else []; CanAll(h.line, es) && r.line == NextAll(h.line, es)
    ensures h.reader && !ready ==> !r.dataIn && r.reqOut
    ensures !h.reader ==> r == h.(dataIn := false)
    ensures h.reader && ready && readings == [] ==> r == h
  {
    hide Codec.Valid, ReadBody, Next, NextAll, CanAll, Can;
    r := h;
    if h.reader {
      ghost var es := Reads(readings);
      Nothing(h.line, es[..0]);
      for i := 0 to |readings|
        invariant Valid(r) && r.reader
        invariant r.line.state in {ReceivingBody, Handling}
        invariant Codec.Valid(h.line.enc) && CanAll(h.line, es[..i]) && r.line == NextAll(h.line, es[..i])
        invariant i == 0 ==> r == h
      {
        ReadNext(r.line, readings[i].call);
        OneMore(h.line, es, i);
        var eof;
        r, eof := ReadRequestBody(r, readings[i]);
      }
      assert es[..|readings|] == es;
      if !ready {
        r := r.(dataIn := false, reqOut := true);
      }
    } else {
      Nothing(h.line, []);
      r := h.(dataIn := false);
    }
  }

  lemma Nothing(l: Line, es: seq<Event>)
    requires Codec.Valid(l.enc) && es == []
    ensures CanAll(l, es) && NextAll(l, es) == l
  {
  }

  lemma ReadNext(l: Line, call: RequestBody.Call)
    requires Codec.Valid(l.enc)
    ensures Can(l, BodyRead(call)) && Next(l, BodyRead(call)) == ReadBody(l, call)
    ensures l.state in {ReceivingBody, Handling} ==> ReadBody(l, call).state in {ReceivingBody, Handling}
  {
  }

  /** From the arrival of a request on, the reads of a connection make the story of its body, and the
      request is handled from when the reader is told the end. */
  lemma {:induction false} RequestBodyIsRead(l: Line, q: RequestBody.Request, es: seq<Event>, calls: seq<RequestBody.Call>)
    requires Codec.Valid(l.enc) && l.state == ReceivingBody && l.body == RequestBody.Begin(q)
    requires |es| == |calls| && forall i :: 0 <= i < |es| ==> es[i] == BodyRead(calls[i])
    ensures CanAll(l, es)
    ensures var t, story := NextAll(l, es), RequestBody.All(RequestBody.Once(q), calls);
            t.body == story.body && t.state == if story.eof then Handling else ReceivingBody
    decreases |es|
  {
    hide Codec.Valid, Next, NextAll, CanAll, Can, RequestBody.Read;
    if es == [] {
      Nothing(l, es);
    } else {
      var n := |es| - 1;
      RequestBodyIsRead(l, q, es[..n], calls[..n]);
      ReadNext(NextAll(l, es[..n]), calls[n]);
      OneMore(l, es, n);
      assert es[..n + 1] == es;
    }
  }

  /** The first part of `data_out_do_write`: the socket takes up to `n` octets of what is left of a 100
      Continue; `go` tells whether the response follows in the same call. */
  method SendContinue(h: Hsp, n: nat) returns (r: Hsp, go: bool)
    requires Valid(h) && h.line.sending100
    ensures Valid(r) && r.line == TakeContinue(h.line, n)
    ensures go == (n >= |h.line.rest| && h.line.state == SendingHeaders)
    ensures r.line.sending100 == (n < |h.line.rest|) && (n >= |h.line.rest| ==> r.dataOut == go)
    ensures r.producer == h.producer && r.fired == h.fired
  {
    hide Codec.Valid;
    var line := TakeText(h.line, n);
    go := line.rest == [] && h.line.state == SendingHeaders;
    if line.rest != [] {
      r := h.(line := line);
    } else if go {
      r := h.(line := line.(sending100 := false, rest := h.line.raw));
    } else {
      r := h.(line := line.(sending100 := false), dataOut := false);
    }
  }

  /** The header part of `data_out_do_write`; `go` tells whether the body follows in the same call. */
  method SendHeaderText(h: Hsp, m: nat) returns (r: Hsp, go: bool)
    requires Valid(h) && h.line.state == SendingHeaders && h.line.completes == 0 && !h.line.sending100
    ensures Valid(r) && r.line == TakeHeaders(h.line, m)
    ensures go == (m >= |h.line.rest| && !h.line.bodyless)
    ensures go ==> r == h.(line := r.line)
    ensures !h.fired ==> !r.fired
    ensures r.producer == (h.producer && r.line.completes == 0)
  {
    hide Codec.Valid;
    var line := TakeText(h.line, m);
    go := line.rest == [] && !h.line.bodyless;
    if line.rest != [] {
      r := h.(line := line);
    } else if h.line.bodyless {
      r := RequestComplete(h.(line := line));
    } else {
      r := h.(line := line.(state := SendingBody));
    }
  }

  /** `resp_body_in_write_or_sendfile` */
  method WriteBody(h: Hsp, w: Writing) returns (r: Hsp)
    requires Valid(h) && h.producer && Can(h.line, Produced(w))
    ensures Valid(r) && r.line == Produce(h.line, w)
    ensures h.line.state == SendingBody ==>
              (r.line.completes == 1 <==> w.eof && TakenBy(h.line, w) == |w.data| && (h.line.chunked ==> Codec.IsComplete(r.line.enc)))
    ensures h.line.state == SendingBody ==> !r.fired
    ensures h.line.state != SendingBody ==> !r.respIn && r.dataOut
    ensures h.line.state == SendingBody && r.line.completes == 0 ==>
              var asks := h.line.chunked || w.data != []; // the socket is asked unless there is nothing to write
              var ready := !asks || (w.open && w.ready);
              r.respIn == (h.respIn && ready) && r.dataOut == (h.dataOut || !ready)
    ensures r.line.chunked == h.line.chunked
    ensures r.producer == (h.producer && r.line.completes == 0) && (h.dataOut && r.line.completes == 0 ==> r.dataOut)
  {
    hide Codec.Valid, Lawful, Produce, TakenBy;
    if h.line.state != SendingBody {
      r := h.(respIn := false, dataOut := true);
      NotProduced(h.line, w);
    } else {
      r := PassToSocket(h, w);
      WriteEnds(h.line, w);
      StaysChunked(h.line, w);
    }
  }

  lemma StaysChunked(l: Line, w: Writing)
    requires Codec.Valid(l.enc) && Lawful(l, w)
    ensures Produce(l, w).chunked == l.chunked
  {
    hide Over, Accept;
  }

  lemma NotProduced(l: Line, w: Writing)
    requires Codec.Valid(l.enc) && Lawful(l, w) && l.state != SendingBody
    ensures Produce(l, w) == l
  {
  }

  /** What `resp_body_in_write_or_sendfile` does while a body is sent. */
  method PassToSocket(h: Hsp, w: Writing) returns (r: Hsp)
    requires Valid(h) && h.producer && Can(h.line, Produced(w)) && h.line.state == SendingBody
    ensures Valid(r) && r.line == Produce(h.line, w) && !r.fired
    ensures r.line.completes == 0 ==>
              r.respIn == (h.respIn && SocketReady(h.line.chunked, w)) && r.dataOut == (h.dataOut || !SocketReady(h.line.chunked, w))
    ensures r.producer == (h.producer && r.line.completes == 0) && (h.dataOut && r.line.completes == 0 ==> r.dataOut)
  {
    hide Codec.Valid, Accept, Lawful;
    ProduceShape(h.line, w);
    var a := Accept(h.line, w);
    var ready := SocketReady(h.line.chunked, w);
    r := h.(line := h.line.(enc := a.enc, sent := h.line.sent + a.wire), armed := Unset(h.armed, Write), fired := false,
            respIn := h.respIn && ready, dataOut := h.dataOut || !ready);
    if Over(h.line, w) {
      r := RequestComplete(r);
    } else {
      r := r.(armed := Set(r.armed, Write));
    }
  }

  /** The socket is ready behind a write; one of no data without chunking does not look. */
  predicate SocketReady(chunked: bool, w: Writing) {
    (w.data == [] && !chunked) || (w.open && w.ready)
  }

  lemma ProduceShape(l: Line, w: Writing)
    requires Codec.Valid(l.enc) && Lawful(l, w) && l.state == SendingBody
    ensures var a := Accept(l, w);
            && Codec.Valid(a.enc)
            && var t := l.(enc := a.enc, sent := l.sent + a.wire);
               Produce(l, w) == if Over(l, w) then Finish(t) else t
  {
  }

  function Produces(ws: seq<Writing>): (es: seq<Event>)
    ensures |es| == |ws|
  {
    seq(|ws|, i requires 0 <= i < |ws| => Produced(ws[i]))
  }

  /** The body part of `data_out_do_write`: the producer is called if it is ready, writes as often as it
      likes, and is ready or not afterwards. */
  method SendBody(h: Hsp, ws: seq<Writing>, wasReady: bool, ready: bool) returns (r: Hsp)
    requires Valid(h) && h.line.state == SendingBody && h.line.completes == 0 && h.dataOut
    requires wasReady ==> h.producer
    requires ws != [] || ready ==> wasReady
    requires CanAll(h.line, Produces(ws))
    ensures Valid(r) && r.line == NextAll(h.line, Produces(ws))
    ensures h.producer && !ready ==> !r.dataOut && r.respIn
    ensures !h.producer ==> r == h.(dataOut := false)
    ensures h.producer && ready && r.line.completes == 0 ==>
              r.dataOut && (r.respIn <==> forall k :: 0 <= k < |ws| ==> SocketReady(h.line.chunked, ws[k]))
    ensures !h.fired ==> !r.fired
    ensures r.producer == (h.producer && r.line.completes == 0)
  {
    hide Codec.Valid, Next, NextAll, CanAll, Can;
    ghost var es := Produces(ws);
    Nothing(h.line, es[..0]);
    r := h;
    if h.producer {
      if wasReady {
        r := r.(respIn := true);
        for i := 0 to |ws|
          invariant Valid(r) && r.line.state == SendingBody && (!h.fired ==> !r.fired)
          invariant r.line.completes == 0 ==> r.producer && r.dataOut
          invariant r.producer == (r.line.completes == 0) && r.line.chunked == h.line.chunked
          invariant r.line.completes == 0 ==> (r.respIn <==> forall k :: 0 <= k < i ==> SocketReady(h.line.chunked, ws[k]))
          invariant Codec.Valid(h.line.enc) && CanAll(h.line, es[..i]) && r.line == NextAll(h.line, es[..i])
        {
          CanAt(h.line, es, i);
          ProduceNext(r.line, ws[i]);
          OneMore(h.line, es, i);
          r := WriteBody(r, ws[i]);
        }
        assert es[..|ws|] == es;
      }
      if !ready {
        r := r.(dataOut := false, respIn := true);
      }
    } else {
      r := r.(dataOut := false);
    }
  }

  lemma {:induction false} CanAt(l: Line, es: seq<Event>, i: nat)
    requires Codec.Valid(l.enc) && CanAll(l, es) && i < |es|
    ensures CanAll(l, es[..i]) && Can(NextAll(l, es[..i]), es[i])
    decreases i
  {
    hide Codec.Valid, Next, Can;
    if i > 0 {
      CanAt(Next(l, es[0]), es[1..], i - 1);
      assert es[..i][1..] == es[1..][..i - 1];
    }
  }

  lemma ProduceNext(l: Line, w: Writing)
    requires Codec.Valid(l.enc) && Can(l, Produced(w))
    ensures l.completes == 0 && Next(l, Produced(w)) == Produce(l, w) && Produce(l, w).state == l.state
  {
  }

  // ---------------------------------------------------------------- the output callback

  /** What a call of `data_out_do_write` does for the line: texts, and behind all of them the producer's
      writes. */
  function Sends(l: Line, n: nat, m: nat, ws: seq<Writing>): (r: seq<Event>) {
    var t := Send(l, n, m);
    [Out(n, m)] + if t.state == SendingBody && t.completes == 0 then Produces(ws) else []
  }

  /** `data_out_do_write` */
  method DoWrite(h: Hsp, n: nat, m: nat, ws: seq<Writing>, wasReady: bool, ready: bool) returns (r: Hsp)
    requires Valid(h) && h.dataOut && CanAll(h.line, Sends(h.line, n, m, ws))
    requires wasReady ==> h.producer
    requires ws != [] || ready ==> wasReady
    ensures Valid(r) && r.line == NextAll(h.line, Sends(h.line, n, m, ws))
    ensures r.producer == (h.producer && r.line.completes == 0)
  {
    hide Codec.Valid, Next, NextAll, CanAll, Can, Send, TakeContinue, SendHeaders, Produces;
    r := h;
    SendsInParts(h.line, n, m, ws);
    if h.line.sending100 {
      var go;
      r, go := SendContinue(h, n);
      if !go { return; }
    }
    r := SendResponse(r, m, ws, wasReady, ready);
  }

  /** The rest of `data_out_do_write`, with the write timer started anew. */
  method SendResponse(h: Hsp, m: nat, ws: seq<Writing>, wasReady: bool, ready: bool) returns (r: Hsp)
    requires Valid(h) && h.dataOut && !h.line.sending100
    requires wasReady ==> h.producer
    requires ws != [] || ready ==> wasReady
    requires var t := SendHeaders(h.line, m); t.state == SendingBody && t.completes == 0 ==> CanAll(t, Produces(ws))
    ensures Valid(r) && !r.fired && r.producer == (h.producer && r.line.completes == 0)
    ensures var t := SendHeaders(h.line, m);
            r.line == if t.state == SendingBody && t.completes == 0 then NextAll(t, Produces(ws)) else t
  {
    hide Codec.Valid, NextAll, CanAll, TakeHeaders, Produces;
    r := h.(armed := Set(Unset(h.armed, Write), Write), fired := false);
    if r.line.state == SendingHeaders {
      HeadersShape(h.line, m);
      var go;
      r, go := SendHeaderText(r, m);
      if !go { return; }
    }
    if r.line.state == SendingBody {
      r := SendBody(r, ws, wasReady, ready);
    } else {
      assert false; // the branch that reports a wrong state
    }
  }

  lemma HeadersShape(l: Line, m: nat)
    requires l.state == SendingHeaders && l.completes == 0
    ensures var t := TakeHeaders(l, m);
            (t.state == SendingBody && t.completes == 0) <==> (m >= |l.rest| && !l.bodyless)
  {
  }

  lemma SendsInParts(l: Line, n: nat, m: nat, ws: seq<Writing>)
    requires Codec.Valid(l.enc) && l.completes == 0 && CanAll(l, Sends(l, n, m, ws))
    ensures var t, c := Send(l, n, m), TakeContinue(l, n);
            && c.state == l.state && c.completes == l.completes
            && t == (if !l.sending100 then SendHeaders(l, m)
                     else if !c.sending100 && l.state == SendingHeaders then SendHeaders(c, m) else c)
            && if t.state == SendingBody && t.completes == 0 then
                 CanAll(t, Produces(ws)) && NextAll(l, Sends(l, n, m, ws)) == NextAll(t, Produces(ws))
               else NextAll(l, Sends(l, n, m, ws)) == t
  {
    hide Codec.Valid, Can, Send, Produces;
    SendShape(l, n, m);
    var t, es := Send(l, n, m), Sends(l, n, m, ws);
    assert es[0] == Out(n, m) && es[1..] == if t.state == SendingBody && t.completes == 0 then Produces(ws) else [];
    assert Next(l, es[0]) == t;
    Nothing(t, []);
  }

  lemma SendShape(l: Line, n: nat, m: nat)
    ensures var t, c := Send(l, n, m), TakeContinue(l, n);
            && c.state == l.state && c.completes == l.completes
            && t == (if !l.sending100 then SendHeaders(l, m)
                     else if !c.sending100 && l.state == SendingHeaders then SendHeaders(c, m) else c)
  {
  }

  // ---------------------------------------------------------------- runs

  /** What the loop and the application can do to a connection. */
  datatype Stimulus =
    | Readable(headers: Headers, readings: seq<Reading>, stays: bool)
    | Writable(n: nat, m: nat, writings: seq<Writing>, wasReady: bool, ready: bool)
    | ReaderReady(reading: Reading)
    | ProducerReady(write: Writing)
    | ReaderConnected
    | Answer(answer: ReplyOrder.Answer)
    | CompleteDelivered
    | Elapsed(timer: Timer)

  /** What it does for the line. */
  function Seen(h: Hsp, x: Stimulus): (r: seq<Event>) {
    match x
    case Readable(headers, readings, _) =>
      if h.line.state != ReceivingBody then [Text(headers)] else if h.reader then Reads(readings) else []
    case Writable(n, m, ws, _, _) => Sends(h.line, n, m, ws)
    case ReaderReady(reading) => [BodyRead(reading.call)]
    case ProducerReady(write) => [Produced(write)]
    case ReaderConnected => []
    case Answer(answer) => [Answered(answer)]
    case CompleteDelivered => [Cleaned]
    case Elapsed(_) => []
  }

  /** The loop delivers it only where the flags and connections allow it; producers keep to what the
      encoder asserts, and write nothing behind a response that is through. */
  predicate Enabled(h: Hsp, x: Stimulus)
    requires Codec.Valid(h.line.enc)
  {
    && (match x
        case Readable(_, _, _) => h.dataIn
        case Writable(_, _, ws, wasReady, ready) => h.dataOut && (wasReady ==> h.producer) && (ws != [] || ready ==> wasReady)
        case ReaderReady(_) => h.reader && h.reqOut
        case ProducerReady(_) => h.producer && h.respIn
        case ReaderConnected => !h.reader
        case Answer(_) => true
        case CompleteDelivered => h.line.completes > 0
        case Elapsed(t) => IsSet(h.armed, t))
    && CanAll(h.line, Seen(h, x))
  }

  /** What every callback does to the line: it has moved by the events seen. */
  ghost predicate Moves(h: Hsp, x: Stimulus, r: Hsp)
    requires Codec.Valid(h.line.enc) && Enabled(h, x)
  {
    r.line == NextAll(h.line, Seen(h, x))
  }

  /** Input, and what the application does. */
  method StepIn(h: Hsp, x: Stimulus) returns (r: Hsp)
    requires Valid(h) && Enabled(h, x) && (x.Readable? || x.ReaderReady? || x.Answer?)
    ensures Valid(r) && Moves(h, x, r)
  {
    hide NextAll, CanAll, Reads, Heard, ReadBody, Respond, TimersRight, ReadyRight, Codec.Valid;
    if |Seen(h, x)| == 1 { OneEvent(h.line, Seen(h, x)); }
    match x {
      case Readable(headers, readings, stays) =>
        if h.line.state == ReceivingBody {
          r := PassOn(h, readings, stays);
        } else {
          r := ReadHeaders(h, headers);
        }
      case ReaderReady(reading) => var eof; r, eof := ReadRequestBody(h, reading);
      case Answer(a) => r := StartSending(h, a);
    }
  }

  method Step(h: Hsp, x: Stimulus) returns (r: Hsp)
    requires Valid(h) && Enabled(h, x)
    ensures Valid(r) && Moves(h, x, r)
    ensures x.Writable? ==> r.producer == (h.producer && r.line.completes == 0)
  {
    hide NextAll, CanAll, Sends, Produce, Lawful, TimersRight, ReadyRight, Codec.Valid;
    if |Seen(h, x)| == 1 { OneEvent(h.line, Seen(h, x)); }
    match x {
      case Writable(n, m, ws, wasReady, ready) => r := DoWrite(h, n, m, ws, wasReady, ready);
      case ProducerReady(w) => r := WriteBody(h, w);
      case ReaderConnected =>
        Nothing(h.line, []);
        r := ConnectReader(h);
      case CompleteDelivered => r := Cleanup(h);
      case Elapsed(t) =>
        Nothing(h.line, []);
        r := Expire(h, t);
      case _ => r := StepIn(h, x);
    }
  }

  /** One stimulus of a run: it has its effect on the line if it is enabled, and none at all otherwise. */
  ghost predicate Happens(h: Hsp, x: Stimulus, r: Hsp) {
    Codec.Valid(h.line.enc) && if Enabled(h, x) then Moves(h, x, r) else r == h
  }

  /** A connection from its start, as far as its line goes. */
  ghost predicate IsRun(hs: seq<Hsp>, xs: seq<Stimulus>) {
    && |hs| == |xs| + 1 && hs[0].line == START
    && forall i :: 0 <= i < |xs| ==> Happens(hs[i], xs[i], hs[i + 1])
  }

  /** Only the timer of the current state is armed, and it is unless it has run out; no second cleanup is
      asked for. */
  ghost predicate Watched(h: Hsp) {
    && (forall t :: IsSet(h.armed, t) ==> IsSet(TimersOf(h.line.state, h.line.completes > 0), t))
    && (!h.fired ==> h.armed == TimersOf(h.line.state, h.line.completes > 0))
    && h.line.completes <= 1
  }

  lemma ValidWatched(h: Hsp)
    requires Valid(h)
    ensures Watched(h) && Codec.Valid(h.line.enc)
  {
    hide ReadyRight, Codec.Valid;
  }

  /** The connection driven by any stimuli, those that are not enabled left out. Every precondition on the
      way is met: no timer is armed twice (the precondition of `Set`), and no cleanup comes unasked.
      In every state `hs` of the run the invariants hold and only the state's own timer is armed. */
  method Run(xs: seq<Stimulus>) returns (hs: seq<Hsp>)
    ensures IsRun(hs, xs) && hs[0].dataIn && hs[0].respIn && !hs[0].fired
    ensures forall i :: 0 <= i <= |xs| ==> Valid(hs[i]) && Watched(hs[i])
  {
    hide Valid, Watched, Enabled, Moves;
    var h := Connect();
    hs := [h];
    ValidWatched(h);
    for k := 0 to |xs|
      invariant |hs| == k + 1 && h == hs[k] && hs[0].line == START && hs[0].dataIn && hs[0].respIn && !hs[0].fired
      invariant forall i :: 0 <= i <= k ==> Valid(hs[i]) && Watched(hs[i])
      invariant forall i :: 0 <= i < k ==> Happens(hs[i], xs[i], hs[i + 1])
    {
      ValidWatched(h);
      ghost var was := h;
      if Enabled(h, xs[k]) {
        h := Step(h, xs[k]);
        ValidWatched(h);
      }
      assert Happens(was, xs[k], h);
      hs := hs + [h];
    }
  }

  /** All the events of a run. */
  ghost function AllSeen(hs: seq<Hsp>, xs: seq<Stimulus>): (es: seq<Event>)
    requires IsRun(hs, xs)
    decreases |xs|
  {
    if xs == [] then []
    else
      var n := |xs| - 1;
      assert Happens(hs[n], xs[n], hs[n + 1]);
      AllSeen(hs[..n + 1], xs[..n]) + if Enabled(hs[n], xs[n]) then Seen(hs[n], xs[n]) else []
  }

  lemma {:induction false} RunSeen(hs: seq<Hsp>, xs: seq<Stimulus>)
    requires IsRun(hs, xs)
    ensures CanAll(START, AllSeen(hs, xs)) && hs[|xs|].line == NextAll(START, AllSeen(hs, xs))
    decreases |xs|
  {
    hide CanAll, NextAll, Seen, Codec.Valid;
    StartValid();
    if xs == [] {
      Nothing(START, AllSeen(hs, xs));
    } else {
      var n := |xs| - 1;
      var before := AllSeen(hs[..n + 1], xs[..n]);
      RunSeen(hs[..n + 1], xs[..n]);
      assert Happens(hs[n], xs[n], hs[n + 1]);
      if Enabled(hs[n], xs[n]) {
        AllConcat(START, before, Seen(hs[n], xs[n]));
      } else {
        assert before + [] == before;
      }
    }
  }

  lemma StartValid()
    ensures Codec.Valid(START.enc)
  {
  }

  /** What the socket has taken on every run is whole replies, one for each answer of the application in
      order, each with the body taken for it, and a part of the reply under way. */
  lemma WireOfEveryRun(hs: seq<Hsp>, xs: seq<Stimulus>)
    requires IsRun(hs, xs)
    ensures var line, es := hs[|xs|].line, AllSeen(hs, xs);
            && CanAll(START, es)
            && var g := LedgerOf(es);
               && AllOnWire(g.done) <= line.sent <= AllOnWire(g.done + [g.cur])
               && (forall i :: 0 <= i < |g.done| ==> Entire(g.done[i]))
               && (line.state == SendingBody && line.completes == 0 ==> Carries(g.cur, line.enc))
               && Matches(Answering(g, Open(line)), AnswersIn(Journal(START, es)))
  {
    hide CanAll, NextAll, AllOnWire, Entire, Carries, Matches, Answering, AnswersIn, Journal, Codec.Valid, Happens, AllSeen;
    RunSeen(hs, xs);
    SentInOrder(AllSeen(hs, xs));
    OneAnswerEach(AllSeen(hs, xs));
  }

  // ---------------------------------------------------------------- no connection is stuck

  /** A stimulus that the loop or the application can give, and where it leads. */
  ghost predicate Takes(h: Hsp, x: Stimulus, r: Hsp) {
    Codec.Valid(h.line.enc) && Enabled(h, x) && Moves(h, x, r)
  }

  /** Whether the body of a response under way, if there is to be one, has its producer. */
  predicate Fed(h: Hsp) {
    Open(h.line) ==> (h.line.state == SendingHeaders && h.line.bodyless) || h.producer
  }

  /** How many stimuli a connection is away from waiting for a request. */
  function Distance(l: Line): (r: nat) {
    if l.completes > 0 then 1
    else match l.state case WaitingForRequest => 0 case SendingBody => 2 case SendingHeaders => 3 case _ => 4
  }

  /** From every state that a connection can get into it can be brought back to waiting for a request by at
      most four stimuli: a request under way is answered, a response sent to its end, and one that is
      through cleaned up. */
  method BackToWaiting(h: Hsp) returns (hs: seq<Hsp>, xs: seq<Stimulus>)
    requires Valid(h) && Fed(h)
    ensures |hs| == |xs| + 1 && |xs| <= 4 && hs[0] == h && hs[|xs|].line.state == WaitingForRequest
    ensures forall i :: 0 <= i < |xs| ==> Takes(hs[i], xs[i], hs[i + 1])
  {
    hide Valid, Fed, Takes;
    var r := h;
    hs, xs := [h], [];
    while Distance(r.line) > 0
      invariant Valid(r) && Fed(r) && |hs| == |xs| + 1 && hs[0] == h && hs[|xs|] == r
      invariant |xs| + Distance(r.line) <= 4
      invariant forall i :: 0 <= i < |xs| ==> Takes(hs[i], xs[i], hs[i + 1])
      decreases Distance(r.line)
    {
      var x;
      x, r := Closer(r);
      hs, xs := hs + [r], xs + [x];
    }
  }

  /** One stimulus on the way. */
  method Closer(h: Hsp) returns (x: Stimulus, r: Hsp)
    requires Valid(h) && Fed(h) && Distance(h.line) > 0
    ensures Valid(r) && Fed(r) && Takes(h, x, r) && Distance(r.line) < Distance(h.line)
  {
    hide Valid, Fed, Takes;
    if h.line.completes > 0 {
      x, r := CleanUp(h);
    } else if h.line.state == SendingBody {
      x, r := SendLast(h);
    } else if h.line.state == SendingHeaders {
      x, r := SendTexts(h);
    } else {
      x, r := AnswerEmpty(h);
    }
  }

  /** What `Valid` says of a response under way: some side listens. */
  lemma Awake(h: Hsp)
    requires Valid(h) && Open(h.line)
    ensures Codec.Valid(h.line.enc) && h.line.completes == 0 && (h.line.state == SendingHeaders || h.line.state == SendingBody)
    ensures h.line.state == SendingHeaders ==> h.dataOut
    ensures h.line.state == SendingBody ==> !h.line.sending100 && (h.producer ==> h.dataOut || h.respIn)
  {
  }

  method SendTexts(h: Hsp) returns (x: Stimulus, r: Hsp)
    requires Valid(h) && Fed(h) && h.line.state == SendingHeaders && h.line.completes == 0
    ensures Valid(r) && Fed(r) && Takes(h, x, r) && Distance(r.line) <= 2
  {
    hide Next, Send, Codec.Valid;
    var l := h.line;
    Awake(h);
    TextsGo(l);
    x := Writable(|l.rest|, |l.rest| + |l.raw|, [], false, false);
    OutOnly(l, |l.rest|, |l.rest| + |l.raw|);
    r := Step(h, x);
  }

  lemma OutOnly(l: Line, n: nat, m: nat)
    requires Codec.Valid(l.enc) && l.completes == 0
    ensures var es := Sends(l, n, m, []); CanAll(l, es) && NextAll(l, es) == Send(l, n, m)
  {
    hide Codec.Valid, Send;
    var es := Sends(l, n, m, []);
    assert es == [Out(n, m)];
    OneEvent(l, es);
  }

  method SendLast(h: Hsp) returns (x: Stimulus, r: Hsp)
    requires Valid(h) && Fed(h) && h.line.state == SendingBody && h.line.completes == 0
    ensures Valid(r) && Fed(r) && Takes(h, x, r) && Distance(r.line) == 1
  {
    hide Next, Send, Produce, Codec.Valid, LastWrite;
    var l := h.line;
    Awake(h);
    LastWriteEnds(l);
    if h.respIn {
      LastAlone(l);
      x := ProducerReady(LastWrite(l));
    } else {
      LastBehindTexts(l);
      x := Writable(0, 0, [LastWrite(l)], true, false);
    }
    r := Step(h, x);
  }

  lemma LastAlone(l: Line)
    requires Codec.Valid(l.enc) && Can(l, Produced(LastWrite(l)))
    ensures var es := [Produced(LastWrite(l))]; CanAll(l, es) && NextAll(l, es) == Produce(l, LastWrite(l))
  {
    hide Codec.Valid, Produce, LastWrite;
    OneEvent(l, [Produced(LastWrite(l))]);
  }

  lemma LastBehindTexts(l: Line)
    requires Codec.Valid(l.enc) && l.state == SendingBody && l.completes == 0 && !l.sending100
    requires Can(l, Produced(LastWrite(l)))
    ensures var es := Sends(l, 0, 0, [LastWrite(l)]); CanAll(l, es) && NextAll(l, es) == Produce(l, LastWrite(l))
  {
    hide Codec.Valid, Produce, LastWrite;
    var w := LastWrite(l);
    var es := Sends(l, 0, 0, [w]);
    assert Produces([w]) == [Produced(w)] && es == [Out(0, 0), Produced(w)];
    assert Next(l, Out(0, 0)) == l;
    OneEvent(l, [Produced(w)]);
    assert es[1..] == [Produced(w)];
  }

  method AnswerEmpty(h: Hsp) returns (x: Stimulus, r: Hsp)
    requires Valid(h) && h.line.state in {ReceivingHeaders, ReceivingBody, Handling}
    ensures Valid(r) && Fed(r) && Takes(h, x, r) && Distance(r.line) == 3
  {
    hide Valid, Next, Codec.Valid;
    var a := ReplyOrder.Answer.Answer([], Content.Nothing, false, false, false, false);
    AnswerTaken(h, a);
    x := Stimulus.Answer(a);
    r := Step(h, x);
  }

  lemma AnswerTaken(h: Hsp, a: ReplyOrder.Answer)
    requires Valid(h) && h.line.state in {ReceivingHeaders, ReceivingBody, Handling} && a.content.Nothing?
    ensures Codec.Valid(h.line.enc) && Enabled(h, Stimulus.Answer(a))
    ensures var l := NextAll(h.line, Seen(h, Stimulus.Answer(a))); Open(l) && l.state == SendingHeaders && l.bodyless
  {
    OneEvent(h.line, [Answered(a)]);
  }

  method CleanUp(h: Hsp) returns (x: Stimulus, r: Hsp)
    requires Valid(h) && h.line.completes > 0
    ensures Valid(r) && Fed(r) && Takes(h, x, r) && Distance(r.line) == 0
  {
    hide Codec.Valid;
    OneEvent(h.line, [Cleaned]);
    x := CompleteDelivered;
    r := Step(h, x);
  }
}
