/** What one HTTP connection puts on the wire: the HSP states, the texts under way and the body's
    encoding, moved by events. `ServerProtocol` adds the timers and ready flags that decide when
    the events happen. */
module ReplyOrder {
  import opened Octets
  import opened Sequences
  import opened ChunkedGrammar
  import Codec = ChunkedEncoder
  import Decoder = ChunkedDecoder
  import opened ResponseBody
  import RequestBody

  datatype State = WaitingForRequest | ReceivingHeaders | ReceivingBody | Handling | SendingHeaders | SendingBody

  predicate Sending(state: State) {
    state == SendingHeaders || state == SendingBody
  }

  predicate Receiving(state: State) {
    state == ReceivingHeaders || state == ReceivingBody || state == Handling
  }

  /** "HTTP/1.1 100 Continue" and the empty line behind it. */
  function Continue(): (text: seq<Byte>)
    ensures text != []
  {
    Ascii("HTTP/1.1 100 Continue\r\n\r\n")
  }

  /** The fields that decide what is sent, and what the socket has taken: `rest` is what
      `resp_headers_ptr` still has to send, `raw` the response's header text, `completes` the messages
      NXD_HSP_REQUEST_COMPLETE in the loop, `body` the request's body. */
  datatype Line = Line(
    state: State, completes: nat, sending100: bool, bodyless: bool, chunked: bool,
    rest: seq<Byte>, raw: seq<Byte>, enc: Codec.Enc, sent: seq<Byte>, body: RequestBody.Incoming)

  const START := Line(WaitingForRequest, 0, false, false, false, [], [], Codec.START, [],
                     RequestBody.Begin(RequestBody.Request(false, 0, [])))

  // ---------------------------------------------------------------- events

  /** No body, one of known length, or one that is chunked on the way out: the source asserts that
      automatic chunking goes with an unknown length. */
  datatype Content = Nothing | Plain | Chunked

  /** What the application answers with; `out` tells whether there is a stream for the body. */
  datatype Answer = Answer(headers: seq<Byte>, content: Content, out: bool, notModified: bool, head: bool, keep: bool)

  /** What the header text received so far amounts to: not all of it, malformed or too long, or a
      whole request. */
  datatype Headers = Partial | Unacceptable(page: Answer) | Whole(expect100: bool, request: RequestBody.Request)

  /** One call of `resp_body_in_write_or_sendfile`: the data offered and whether it is the last,
      whether the socket takes anything at all, its room for the parts of the write, and whether it
      is ready afterwards. */
  datatype Writing = Writing(data: seq<Byte>, eof: bool, open: bool, room: (nat, nat, nat), ready: bool)

  /** `Out` is what `data_out_do_write` sends itself: the socket takes up to `n` octets of a 100
      Continue and up to `m` of the headers. `BodyRead` is a call of `req_body_out_read`. */
  datatype Event =
    | Text(headers: Headers)
    | BodyRead(call: RequestBody.Call)
    | Answered(answer: Answer)
    | Out(n: nat, m: nat)
    | Produced(write: Writing)
    | Cleaned

  predicate Bodyless(a: Answer) {
    a.notModified || a.content.Nothing? || a.head
  }

  predicate InChunks(a: Answer) {
    a.content.Chunked? && !Bodyless(a)
  }

  /** `start_sending_response` */
  function Respond(l: Line, a: Answer): (r: Line) {
    if Receiving(l.state) then
      Line(SendingHeaders, l.completes, l.sending100, Bodyless(a), InChunks(a),
           if l.sending100 then l.rest else a.headers, a.headers, Codec.START, l.sent, l.body)
    else l
  }

  /** `data_in_do_read` outside a request body. */
  function Heard(l: Line, headers: Headers): (r: Line) {
    if l.state == WaitingForRequest || l.state == ReceivingHeaders then
      HeardMore(l.(state := ReceivingHeaders), headers)
    else l
  }

  function HeardMore(l: Line, headers: Headers): (r: Line) {
    match headers
    case Partial => l
    case Unacceptable(page) => Respond(l, page)
    case Whole(expect100, request) => Receive(l, Goes(expect100, request), request)
  }

  /** A 100 Continue is begun only when asked for and if nothing of the body has come. */
  predicate Goes(expect100: bool, request: RequestBody.Request) {
    expect100 && request.first == []
  }

  /** A whole request has arrived. */
  function Receive(l: Line, go: bool, request: RequestBody.Request): (r: Line) {
    l.(state := if RequestBody.HasBody(request) then ReceivingBody else Handling, sending100 := go,
       rest := if go then Continue() else l.rest, body := RequestBody.Begin(request))
  }

  lemma ReceiveShape(l: Line, go: bool, request: RequestBody.Request)
    ensures var t := Receive(l, go, request);
            && t.state == (if RequestBody.HasBody(request) then ReceivingBody else Handling) && t.sending100 == go
            && t.completes == l.completes && t.enc == l.enc && (go ==> t.rest != [])
  {
  }

  lemma HeardShape(l: Line, headers: Headers)
    ensures if l.state == WaitingForRequest || l.state == ReceivingHeaders then
              Heard(l, headers) == HeardMore(l.(state := ReceivingHeaders), headers)
            else Heard(l, headers) == l
  {
  }

  /** `req_body_out_read` */
  function ReadBody(l: Line, call: RequestBody.Call): (r: Line) {
    if l.state != ReceivingBody then l
    else
      var g := RequestBody.Read(l.body, call);
      l.(body := g.body, state := if g.eof then Handling else ReceivingBody)
  }

  /** The socket takes up to `n` octets of the text under way. */
  function TakeText(l: Line, n: nat): (r: Line) {
    var k := Min(n, |l.rest|);
    l.(rest := l.rest[k..], sent := l.sent + l.rest[..k])
  }

  function TakeContinue(l: Line, n: nat): (r: Line) {
    var t := TakeText(l, n);
    if t.rest != [] then t
    else t.(sending100 := false, rest := if l.state == SendingHeaders then l.raw else [])
  }

  function TakeHeaders(l: Line, m: nat): (r: Line) {
    var t := TakeText(l, m);
    if t.rest != [] then t
    else if l.bodyless then Finish(t)
    else t.(state := SendingBody)
  }

  /** `request_complete` */
  function Finish(l: Line): (r: Line) {
    l.(completes := l.completes + 1)
  }

  /** The assertion the encoder makes on an offer. */
  predicate Lawful(l: Line, w: Writing) {
    Sending(l.state) && l.chunked && w.open ==> Codec.Legal(l.enc, |w.data|, w.eof)
  }

  /** The socket's part of a write: the data as it is, or in chunks. */
  function Accept(l: Line, w: Writing): (r: Codec.Written)
    requires Codec.Valid(l.enc) && Lawful(l, w) && l.state == SendingBody
    ensures Codec.Valid(r.enc) && r.accepted <= |w.data|
  {
    if !w.open then Codec.Written(l.enc, [], 0, false)
    else if l.chunked then Codec.WriteBody(l.enc, w.data, w.eof, w.room)
    else
      var n := Min(w.room.1, |w.data|);
      Codec.Written(l.enc, w.data[..n], n, n == |w.data|)
  }

  /** The response is over: the end was flagged, all data was taken, and the encoding is complete. */
  predicate Over(l: Line, w: Writing)
    requires Codec.Valid(l.enc) && Lawful(l, w) && l.state == SendingBody
  {
    var r := Accept(l, w);
    w.eof && r.accepted == |w.data| && (l.chunked ==> Codec.IsComplete(r.enc))
  }

  /** `resp_body_in_write_or_sendfile` */
  function Produce(l: Line, w: Writing): (r: Line)
    requires Codec.Valid(l.enc) && Lawful(l, w)
    ensures Codec.Valid(r.enc)
  {
    if l.state != SendingBody then l
    else
      var t := l.(enc := Accept(l, w).enc, sent := l.sent + Accept(l, w).wire);
      if Over(l, w) then Finish(t) else t
  }

  /** How much of the data a write takes. */
  function TakenBy(l: Line, w: Writing): (n: nat)
    requires Codec.Valid(l.enc) && Lawful(l, w) && l.state == SendingBody
    ensures n <= |w.data|
  {
    if !w.open then 0
    else if l.chunked then Codec.WriteBody(l.enc, w.data, w.eof, w.room).accepted
    else if w.room.1 < |w.data| then w.room.1
    else |w.data|
  }

  /** A write ends the response exactly if it flagged the end, all its data was taken, and a chunked encoding
      is complete; whatever it takes of plain data goes out as it is, and nothing goes out unless the
      socket takes something. */
  lemma WriteEnds(l: Line, w: Writing)
    requires Codec.Valid(l.enc) && Lawful(l, w) && l.state == SendingBody && l.completes == 0
    ensures var n, r := TakenBy(l, w), Produce(l, w);
            && (r.completes == 1 <==> w.eof && n == |w.data| && (l.chunked ==> Codec.IsComplete(r.enc)))
            && (r.completes == 0 || r.completes == 1) && r.state == SendingBody
            && (!w.open ==> r.sent == l.sent && r.enc == l.enc)
            && (!l.chunked ==> r.sent == l.sent + w.data[..n])
            && (l.chunked && w.open ==>
                  var x := Codec.WriteBody(l.enc, w.data, w.eof, w.room); r.enc == x.enc && r.sent == l.sent + x.wire)
  {
  }

  /** The text part of `data_out_do_write`. */
  function Send(l: Line, n: nat, m: nat): (r: Line)
    ensures r.enc == l.enc
  {
    if !l.sending100 then SendHeaders(l, m)
    else
      var t := TakeContinue(l, n);
      if !t.sending100 then SendHeaders(t, m) else t
  }

  function SendHeaders(l: Line, m: nat): (r: Line) {
    if l.state == SendingHeaders then TakeHeaders(l, m) else l
  }

  /** Streams are disconnected when a response is through, and its cleanup follows then. */
  predicate Can(l: Line, e: Event) {
    match e
    case Out(_, _) => l.completes == 0
    case Produced(write) => l.completes == 0 && Lawful(l, write)
    case Cleaned => l.completes > 0
    case _ => true
  }

  function Next(l: Line, e: Event): (r: Line)
    requires Codec.Valid(l.enc) && Can(l, e)
    ensures Codec.Valid(r.enc)
  {
    match e
    case Text(headers) => Heard(l, headers)
    case BodyRead(call) => ReadBody(l, call)
    case Answered(a) => Respond(l, a)
    case Out(n, m) => Send(l, n, m)
    case Produced(write) => Produce(l, write)
    case Cleaned => l.(completes := l.completes - 1, state := WaitingForRequest, sending100 := false)
  }

  // ---------------------------------------------------------------- the journal

  /** What an event means for the reply under way: a whole request has arrived, an answer is accepted,
      data of the body has been offered (the last of it if `end`) and `taken` of it has gone out in
      the octets `wire`, the reply is through. */
  datatype Note =
    | Arrived(expect100: bool, request: RequestBody.Request)
    | Given(answer: Answer)
    | Offered(taken: seq<Byte>, left: seq<Byte>, end: bool, wire: seq<Byte>)
    | Through

  function RespondNotes(l: Line, a: Answer): (r: seq<Note>) {
    match l.state
    case ReceivingHeaders => [Given(a)]
    case ReceivingBody => [Given(a)]
    case Handling => [Given(a)]
    case _ => []
  }

  function HeardNotes(l: Line, headers: Headers): (r: seq<Note>) {
    if l.state != WaitingForRequest && l.state != ReceivingHeaders then []
    else
      match headers
      case Partial => []
      case Unacceptable(page) => [Given(page)]
      case Whole(expect100, request) => [Arrived(expect100, request)]
  }

  function ProduceNotes(l: Line, w: Writing): (r: seq<Note>)
    requires Codec.Valid(l.enc) && Lawful(l, w)
  {
    if l.state != SendingBody then []
    else
      var r := Accept(l, w);
      [Offered(w.data[..r.accepted], w.data[r.accepted..], w.eof, r.wire)] + if Over(l, w) then [Through] else []
  }

  function SendNotes(l: Line, n: nat, m: nat): (r: seq<Note>) {
    if !l.sending100 then SendHeadersNotes(l, m)
    else
      var t := TakeContinue(l, n);
      if !t.sending100 then SendHeadersNotes(t, m) else []
  }

  function SendHeadersNotes(l: Line, m: nat): (r: seq<Note>) {
    if l.state == SendingHeaders && TakeText(l, m).rest == [] && l.bodyless then [Through] else []
  }

  function Notes(l: Line, e: Event): (r: seq<Note>)
    requires Codec.Valid(l.enc) && Can(l, e)
  {
    match e
    case Text(headers) => HeardNotes(l, headers)
    case Answered(a) => RespondNotes(l, a)
    case Out(n, m) => SendNotes(l, n, m)
    case Produced(write) => ProduceNotes(l, write)
    case _ => []
  }

  /** A reply: whether a 100 Continue is due before it, its answer, how much of its body the socket has
      taken, how much has been offered, whether that is all of it, and the octets it is sent as. */
  datatype Reply = Reply(due100: bool, answer: Option<Answer>, taken: seq<Byte>, offered: seq<Byte>, ended: bool, body: seq<Byte>)

  const BLANK := Reply(false, None, [], [], false, [])

  /** The replies that are through, and the one under way. */
  datatype Ledger = Ledger(done: seq<Reply>, cur: Reply)

  const EMPTY := Ledger([], BLANK)

  /** A 100 Continue is due when it was asked for and nothing of the body has come. */
  function Enter(g: Ledger, n: Note): (r: Ledger) {
    match n
    case Arrived(expect100, request) => g.(cur := g.cur.(due100 := expect100 && request.first == []))
    case Given(answer) => g.(cur := g.cur.(answer := Some(answer)))
    case Offered(taken, left, end, wire) => g.(cur := Offer(g.cur, taken, left, end, wire))
    case Through => Ledger(g.done + [g.cur], BLANK)
  }

  function Offer(r: Reply, taken: seq<Byte>, left: seq<Byte>, end: bool, wire: seq<Byte>): (res: Reply) {
    r.(taken := r.taken + taken, offered := r.taken + taken + left, ended := end, body := r.body + wire)
  }

  /** The ledger behind a list of notes. */
  function Book(g: Ledger, notes: seq<Note>): (r: Ledger)
    decreases |notes|
  {
    if notes == [] then g else Enter(Book(g, notes[..|notes| - 1]), notes[|notes| - 1])
  }

  lemma BookOne(g: Ledger, n: Note)
    ensures Book(g, [n]) == Enter(g, n)
  {
    assert [n][..0] == [];
  }

  lemma {:induction false} BookConcat(g: Ledger, a: seq<Note>, b: seq<Note>)
    ensures Book(g, a + b) == Book(Book(g, a), b)
    decreases |b|
  {
    if b == [] {
      assert a + b == a;
    } else {
      var n := |b| - 1;
      assert (a + b)[..|a + b| - 1] == a + b[..n];
      BookConcat(g, a, b[..n]);
    }
  }

  // ---------------------------------------------------------------- the wire

  ghost function Lead(r: Reply): (res: seq<Byte>) {
    if r.due100 then Continue() else []
  }

  ghost function HeadersOf(r: Reply): (res: seq<Byte>) {
    if r.answer.Some? then r.answer.value.headers else []
  }

  /** What a reply looks like on the wire. */
  ghost function OnWire(r: Reply): (res: seq<Byte>) {
    Lead(r) + HeadersOf(r) + r.body
  }

  ghost function AllOnWire(rs: seq<Reply>): (r: seq<Byte>)
    decreases |rs|
  {
    if rs == [] then [] else AllOnWire(rs[..|rs| - 1]) + OnWire(rs[|rs| - 1])
  }

  lemma AllAppend(rs: seq<Reply>, r: Reply)
    ensures AllOnWire(rs + [r]) == AllOnWire(rs) + OnWire(r)
  {
    assert (rs + [r])[..|rs|] == rs;
  }

  /** The answer goes without a body: to a HEAD request, "not modified", or with nothing in it. */
  predicate NoBody(a: Answer) {
    match a.content
    case Nothing => true
    case _ => a.head || a.notModified
  }

  /** The body octets hold the data taken: as it is, or in chunks and a part of one more. */
  ghost predicate Carries(r: Reply, e: Codec.Enc) {
    if r.answer.Some? && r.answer.value.content == Chunked then
      exists cs, cur :: Codec.OnWire(e, r.body, cs, cur) && Payload(cs) + cur == r.taken
    else r.body == r.taken
  }

  /** A reply that is through: one without a body has none; of any other the end was flagged, all that was
      offered has been taken, and the body octets are that data, or a whole chunked body with it. */
  ghost predicate Entire(r: Reply) {
    && r.answer.Some?
    && var a := r.answer.value;
       if NoBody(a) then r.body == [] && r.taken == []
       else
         && r.ended && r.taken == r.offered
         && if a.content == Chunked then exists cs :: ValidChunks(cs) && Payload(cs) == r.taken && r.body == Body(cs, ZERO)
            else r.body == r.taken
  }

  lemma CarriesNothing(r: Reply, e: Codec.Enc)
    requires r.body == [] && r.taken == [] && e == Codec.START
    ensures Carries(r, e)
  {
    StartDescribed([]);
    assert Codec.OnWire(e, r.body, [], []) && Payload([]) + [] == r.taken;
  }

  lemma CarriesMore(l: Line, r: Reply, w: Writing)
    requires Codec.Valid(l.enc) && Lawful(l, w) && l.state == SendingBody && Carries(r, l.enc)
    requires r.answer.Some? && l.chunked == (r.answer.value.content == Chunked)
    ensures var a := Accept(l, w);
            Carries(Offer(r, w.data[..a.accepted], w.data[a.accepted..], w.eof, a.wire), a.enc)
  {
    var a := Accept(l, w);
    if !w.open {
      assert r.taken + w.data[..0] == r.taken && r.body + [] == r.body;
    } else if l.chunked {
      var cs, cur :| Codec.OnWire(l.enc, r.body, cs, cur) && Payload(cs) + cur == r.taken;
      var cs', cur' := Codec.WriteOnWire(l.enc, w.data, w.eof, w.room, r.body, cs, cur);
    }
  }

  lemma CarriesAll(r: Reply, e: Codec.Enc)
    requires Carries(r, e) && r.answer.Some? && !NoBody(r.answer.value) && r.ended && r.taken == r.offered
    requires r.answer.value.content == Chunked ==> Codec.IsComplete(e)
    ensures Entire(r)
  {
    if r.answer.value.content == Chunked {
      var cs, cur :| Codec.OnWire(e, r.body, cs, cur) && Payload(cs) + cur == r.taken;
      assert r.taken[..|r.taken|] == r.taken;
      var all := Completion(r.taken, Conn(e, r.body, |r.taken|), cs, cur);
      Codec.OurChunksValid(all);
    }
  }

  /** A peer that decodes the body has exactly the data the socket took, at any time. */
  lemma BodyDecodes(r: Reply, e: Codec.Enc)
    requires Carries(r, e) && r.answer.Some? && r.answer.value.content == Chunked
    ensures var d := Decoder.Feed(Decoder.START, r.body);
            d.out == r.taken && d.status == if Codec.IsComplete(e) then Decoder.Done else Decoder.More
  {
    var cs, cur :| Codec.OnWire(e, r.body, cs, cur) && Payload(cs) + cur == r.taken;
    WireDecodes(e, r.body, cs, cur);
  }

  /** A chunked reply that is through decodes to all that was offered, however the network cuts it. */
  lemma EntireDecodes(r: Reply, parts: seq<seq<Byte>>)
    requires Entire(r) && !NoBody(r.answer.value) && r.answer.value.content == Chunked && Concat(parts) == r.body
    ensures var d := Decoder.FeedAll(Decoder.START, parts);
            d.status == Decoder.Done && d.out == r.offered && d.read == |r.body|
  {
    var cs :| ValidChunks(cs) && Payload(cs) == r.taken && r.body == Body(cs, ZERO);
    Decoder.FragmentationIsInvisible(Decoder.START, parts);
    ZeroIsLast();
    Decoder.DecodesWellFormed(cs, ZERO, []);
    assert r.body + [] == r.body;
  }

  /** The ledger tells what the socket has taken: the replies that are through and, of the one under
      way, a part that ends where the state says. */
  ghost predicate Agrees(l: Line, g: Ledger) {
    && Codec.Valid(l.enc) && (forall i :: 0 <= i < |g.done| ==> Entire(g.done[i]))
    && l.completes <= 1 && (l.completes > 0 ==> Sending(l.state) && !l.sending100)
    && if l.completes > 0 then g.cur == BLANK && l.sent == AllOnWire(g.done)
       else if l.sending100 then BehindContinue(l, g, AllOnWire(g.done))
       else Placed(l, g, AllOnWire(g.done))
  }

  ghost predicate BehindContinue(l: Line, g: Ledger, before: seq<Byte>) {
    && l.rest != [] && l.sent + l.rest == before + Continue() && |before| <= |l.sent| && g.cur.due100
    && match l.state
       case ReceivingBody => g.cur == BLANK.(due100 := true)
       case Handling => g.cur == BLANK.(due100 := true)
       case SendingHeaders => Answers(l, g.cur)
       case _ => false
  }

  ghost predicate Placed(l: Line, g: Ledger, before: seq<Byte>) {
    match l.state
    case WaitingForRequest => l.sent == before && g.cur == BLANK
    case ReceivingHeaders => l.sent == before && g.cur == BLANK
    case ReceivingBody => l.sent == before + Lead(g.cur) && g.cur == BLANK.(due100 := g.cur.due100)
    case Handling => l.sent == before + Lead(g.cur) && g.cur == BLANK.(due100 := g.cur.due100)
    case SendingHeaders => && l.sent + l.rest == before + Lead(g.cur) + l.raw && |before + Lead(g.cur)| <= |l.sent|
                           && Answers(l, g.cur)
    case SendingBody => l.sent == before + OnWire(g.cur) && Follows(l, g.cur)
  }

  /** The headers of the answer wait to be sent, and nothing of the body has been taken. */
  ghost predicate Answers(l: Line, r: Reply) {
    && r.answer.Some? && r == Reply(r.due100, r.answer, [], [], false, [])
    && var a := r.answer.value;
       && l.raw == a.headers && l.enc == Codec.START && (l.bodyless <==> NoBody(a))
       && (l.chunked <==> a.content == Chunked && !NoBody(a))
  }

  /** The body of the answer is under way. */
  ghost predicate Follows(l: Line, r: Reply) {
    && r.answer.Some? && !NoBody(r.answer.value) && l.raw == r.answer.value.headers
    && (l.chunked <==> r.answer.value.content == Chunked) && Carries(r, l.enc)
  }

  lemma RespondAgrees(l: Line, g: Ledger, a: Answer)
    requires Agrees(l, g)
    ensures Agrees(Respond(l, a), Book(g, RespondNotes(l, a)))
  {
    hide Entire, Carries, AllOnWire, Continue;
    BookOne(g, Given(a));
  }

  lemma HeardAgrees(l: Line, g: Ledger, headers: Headers)
    requires Agrees(l, g)
    ensures Agrees(Heard(l, headers), Book(g, HeardNotes(l, headers)))
  {
    hide Entire, Carries, AllOnWire, Continue;
    if l.state == WaitingForRequest || l.state == ReceivingHeaders {
      match headers {
        case Partial =>
        case Unacceptable(page) => RespondAgrees(l.(state := ReceivingHeaders), g, page);
        case Whole(expect100, request) => BookOne(g, Arrived(expect100, request));
      }
    }
  }

  lemma TextJoins(l: Line, n: nat)
    ensures var t := TakeText(l, n); t.sent + t.rest == l.sent + l.rest && (t.rest == [] ==> t.sent == l.sent + l.rest)
  {
  }

  lemma ContinueAgrees(l: Line, g: Ledger, n: nat)
    requires Agrees(l, g) && l.sending100
    ensures Agrees(TakeContinue(l, n), g)
  {
    hide Entire, Carries, AllOnWire, Continue;
    TextJoins(l, n);
    var before := AllOnWire(g.done);
    assert before + Continue() + l.raw == before + (Continue() + l.raw);
  }

  lemma HeadersAgree(l: Line, g: Ledger, m: nat)
    requires Agrees(l, g) && l.state == SendingHeaders && !l.sending100 && l.completes == 0
    ensures Agrees(TakeHeaders(l, m), if TakeText(l, m).rest == [] && l.bodyless then Enter(g, Through) else g)
  {
    hide Entire, Carries, AllOnWire, Continue;
    TextJoins(l, m);
    var t := TakeText(l, m);
    if t.rest == [] {
      assert Lead(g.cur) + HeadersOf(g.cur) + [] == Lead(g.cur) + l.raw;
      var before := AllOnWire(g.done);
      assert before + Lead(g.cur) + l.raw == before + (Lead(g.cur) + l.raw);
      if l.bodyless {
        NothingEntire(g.cur);
        AllAppend(g.done, g.cur);
      } else {
        CarriesNothing(g.cur, l.enc);
      }
    }
  }

  lemma NothingEntire(r: Reply)
    requires r.answer.Some? && NoBody(r.answer.value) && r.body == [] && r.taken == []
    ensures Entire(r)
  {
  }

  lemma FinishAgrees(l: Line, g: Ledger)
    requires Agrees(l, g) && l.state == SendingBody && !l.sending100 && l.completes == 0
    requires (l.chunked ==> Codec.IsComplete(l.enc)) && g.cur.ended && g.cur.taken == g.cur.offered
    ensures Agrees(Finish(l), Enter(g, Through))
  {
    hide Entire, Carries;
    CarriesAll(g.cur, l.enc);
    AllAppend(g.done, g.cur);
  }

  lemma ProduceAgrees(l: Line, g: Ledger, w: Writing)
    requires Agrees(l, g) && Lawful(l, w) && (l.state == SendingBody ==> l.completes == 0)
    ensures Agrees(Produce(l, w), Book(g, ProduceNotes(l, w)))
  {
    hide Entire, Carries, AllOnWire, Continue, Accept;
    if l.state == SendingBody {
      var a := Accept(l, w);
      var note := Offered(w.data[..a.accepted], w.data[a.accepted..], w.eof, a.wire);
      var g' := Enter(g, note);
      var t := l.(enc := a.enc, sent := l.sent + a.wire);
      CarriesMore(l, g.cur, w);
      var lead, before := Lead(g.cur) + HeadersOf(g.cur), AllOnWire(g.done);
      assert lead + g.cur.body + a.wire == lead + (g.cur.body + a.wire);
      assert before + OnWire(g.cur) + a.wire == before + OnWire(g'.cur);
      assert Agrees(t, g');
      BookOne(g, note);
      if Over(l, w) {
        assert g'.cur.taken + [] == g'.cur.taken;
        FinishAgrees(t, g');
        BookConcat(g, [note], [Through]);
        BookOne(g', Through);
      } else {
        assert [note] + [] == [note];
      }
    }
  }

  lemma SendAgrees(l: Line, g: Ledger, n: nat, m: nat)
    requires Agrees(l, g) && l.completes == 0
    ensures Agrees(Send(l, n, m), Book(g, SendNotes(l, n, m)))
  {
    hide Placed, Entire, AllOnWire, TakeContinue, TakeHeaders;
    var t := l;
    if l.sending100 {
      ContinueAgrees(l, g, n);
      ContinueOnly(l, n);
      t := TakeContinue(l, n);
    }
    if !t.sending100 && t.state == SendingHeaders {
      HeadersAgree(t, g, m);
      BookOne(g, Through);
    }
  }

  lemma ContinueOnly(l: Line, n: nat)
    ensures TakeContinue(l, n).state == l.state && TakeContinue(l, n).completes == l.completes
  {
  }

  /** Every event keeps ledger and wire in agreement. */
  lemma NextAgrees(l: Line, g: Ledger, e: Event)
    requires Agrees(l, g) && Can(l, e)
    ensures Agrees(Next(l, e), Book(g, Notes(l, e)))
  {
    hide Entire, Carries, AllOnWire, Continue, Send, SendNotes, Produce, ProduceNotes, Heard, HeardNotes, Respond, RespondNotes;
    match e {
      case Text(headers) => HeardAgrees(l, g, headers);
      case BodyRead(_) =>
      case Answered(a) => RespondAgrees(l, g, a);
      case Out(n, m) => SendAgrees(l, g, n, m);
      case Produced(write) => ProduceAgrees(l, g, write);
      case Cleaned =>
    }
  }

  // ---------------------------------------------------------------- whole runs

  /** Each event of the list can happen in its turn. */
  predicate CanAll(l: Line, es: seq<Event>)
    requires Codec.Valid(l.enc)
    decreases |es|
  {
    es == [] || (Can(l, es[0]) && CanAll(Next(l, es[0]), es[1..]))
  }

  function NextAll(l: Line, es: seq<Event>): (r: Line)
    requires Codec.Valid(l.enc) && CanAll(l, es)
    ensures Codec.Valid(r.enc)
    decreases |es|
  {
    if es == [] then l else NextAll(Next(l, es[0]), es[1..])
  }

  /** The notes of all the events, in order. */
  function Journal(l: Line, es: seq<Event>): (r: seq<Note>)
    requires Codec.Valid(l.enc) && CanAll(l, es)
    decreases |es|
  {
    if es == [] then [] else Notes(l, es[0]) + Journal(Next(l, es[0]), es[1..])
  }

  lemma {:induction false} AllConcat(l: Line, a: seq<Event>, b: seq<Event>)
    requires Codec.Valid(l.enc) && CanAll(l, a) && CanAll(NextAll(l, a), b)
    ensures CanAll(l, a + b) && NextAll(l, a + b) == NextAll(NextAll(l, a), b)
    decreases |a|
  {
    hide Next, Can, Codec.Valid;
    if a == [] {
      assert a + b == b;
    } else {
      AllConcat(Next(l, a[0]), a[1..], b);
      assert (a + b)[1..] == a[1..] + b && (a + b)[0] == a[0];
    }
  }

  lemma {:induction false} AllAgree(l: Line, g: Ledger, es: seq<Event>)
    requires Agrees(l, g) && CanAll(l, es)
    ensures Agrees(NextAll(l, es), Book(g, Journal(l, es)))
    decreases |es|
  {
    hide Next, Notes, Can, Agrees;
    AgreesValid(l, g);
    if es != [] {
      var e := es[0];
      NextAgrees(l, g, e);
      AllAgree(Next(l, e), Book(g, Notes(l, e)), es[1..]);
      BookConcat(g, Notes(l, e), Journal(Next(l, e), es[1..]));
    }
  }

  lemma AgreesValid(l: Line, g: Ledger)
    requires Agrees(l, g)
    ensures Codec.Valid(l.enc) && (l.completes > 0 ==> Sending(l.state))
  {
  }

  ghost function LedgerOf(es: seq<Event>): (r: Ledger)
    requires CanAll(START, es)
  {
    Book(EMPTY, Journal(START, es))
  }

  lemma StartAgrees()
    ensures Agrees(START, EMPTY)
  {
  }

  /** After every run the socket has taken the replies that are through, whole and in order, and of the
      one under way a part: of its 100 Continue if one is due, behind that of the headers of its
      answer, behind those of the body. A body that is through is all the data offered for it up to its
      end, or a chunked encoding of that; replies to HEAD, "not modified" and empty ones have none. */
  lemma SentInOrder(es: seq<Event>)
    requires CanAll(START, es)
    ensures var l, g := NextAll(START, es), LedgerOf(es);
            && AllOnWire(g.done) <= l.sent <= AllOnWire(g.done + [g.cur])
            && (forall i :: 0 <= i < |g.done| ==> Entire(g.done[i]))
            && (l.state == SendingBody && l.completes == 0 ==> l.sent == AllOnWire(g.done + [g.cur]) && Carries(g.cur, l.enc))
            && (l.state != SendingBody || l.completes > 0 ==> g.cur.body == [] && g.cur.taken == [])
            && (l.state == SendingHeaders && !l.sending100 && l.completes == 0 ==> AllOnWire(g.done) + Lead(g.cur) <= l.sent)
            && (l.sending100 ==> g.cur.due100 && l.sent < AllOnWire(g.done) + Continue())
            && (l.completes > 0 || !Sending(l.state) ==> g.cur.answer == None)
  {
    hide Entire, Carries, AllOnWire, Continue;
    StartAgrees();
    AllAgree(START, EMPTY, es);
    var l, g := NextAll(START, es), LedgerOf(es);
    AllAppend(g.done, g.cur);
    PartSent(l, g, AllOnWire(g.done));
  }

  lemma PartSent(l: Line, g: Ledger, before: seq<Byte>)
    requires before == AllOnWire(g.done) && Agrees(l, g)
    ensures before <= l.sent <= before + OnWire(g.cur)
    ensures l.state == SendingHeaders && !l.sending100 && l.completes == 0 ==> before + Lead(g.cur) <= l.sent
    ensures l.sending100 ==> l.sent < before + Continue()
  {
    hide AllOnWire, Entire, Carries, Continue, Codec.Valid;
    var lead := Lead(g.cur);
    if l.sending100 {
      Between(l.sent, l.rest, before, Continue());
      assert before + OnWire(g.cur) == before + Continue() + HeadersOf(g.cur);
    } else if l.completes == 0 && l.state == SendingHeaders {
      Between(l.sent, l.rest, before + lead, l.raw);
      assert before + OnWire(g.cur) == before + lead + l.raw;
    }
  }

  lemma Between(sent: seq<Byte>, rest: seq<Byte>, before: seq<Byte>, text: seq<Byte>)
    requires sent + rest == before + text && |before| <= |sent|
    ensures before <= sent <= before + text && (rest != [] ==> sent < before + text)
  {
    assert sent <= before + text;
    assert before == (before + text)[..|before|] == sent[..|before|];
  }

  // ---------------------------------------------------------------- one answer for each reply

  /** A response is being sent. */
  predicate Open(l: Line) {
    Sending(l.state) && l.completes == 0
  }

  /** Before and after an event, what its notes say of the response. */
  ghost predicate Turns(l: Line, notes: seq<Note>, t: Line) {
    || (Open(t) == Open(l) && (notes == [] || (|notes| == 1 && notes[0].Arrived?)))
    || (!Open(l) && Open(t) && |notes| == 1 && notes[0].Given?)
    || (Open(l) && Open(t) && |notes| == 1 && notes[0].Offered?)
    || (Open(l) && !Open(t) && notes == [Through])
    || (Open(l) && !Open(t) && |notes| == 2 && notes[0].Offered? && notes[1] == Through)
  }

  lemma SendTurns(l: Line, n: nat, m: nat)
    ensures l.completes == 0 ==> Turns(l, SendNotes(l, n, m), Send(l, n, m))
  {
  }

  lemma EventTurns(l: Line, e: Event)
    requires Codec.Valid(l.enc) && Can(l, e) && (l.completes > 0 ==> Sending(l.state))
    ensures Turns(l, Notes(l, e), Next(l, e))
  {
    hide Accept, Codec.Valid, Continue, Send, SendNotes;
    match e {
      case Out(n, m) => SendTurns(l, n, m);
      case _ =>
    }
  }

  /** The answers accepted. */
  function AnswersIn(notes: seq<Note>): (r: seq<Answer>)
    decreases |notes|
  {
    if notes == [] then []
    else
      var n := |notes| - 1;
      AnswersIn(notes[..n]) + if notes[n].Given? then [notes[n].answer] else []
  }

  lemma {:induction false} AnswersConcat(a: seq<Note>, b: seq<Note>)
    ensures AnswersIn(a + b) == AnswersIn(a) + AnswersIn(b)
    decreases |b|
  {
    if b == [] {
      assert a + b == a;
    } else {
      var n := |b| - 1;
      assert (a + b)[..|a + b| - 1] == a + b[..n];
      AnswersConcat(a, b[..n]);
    }
  }

  /** The replies of a ledger that have an answer. */
  function Answering(g: Ledger, open: bool): (r: seq<Reply>) {
    g.done + if open then [g.cur] else []
  }

  /** Replies and answers go together, one by one. */
  ghost predicate Matches(replies: seq<Reply>, answers: seq<Answer>) {
    |replies| == |answers| && forall i :: 0 <= i < |replies| ==> replies[i].answer == Some(answers[i])
  }

  lemma TurnMatches(l: Line, g: Ledger, notes: seq<Note>, t: Line, answers: seq<Answer>)
    requires Turns(l, notes, t) && Matches(Answering(g, Open(l)), answers)
    ensures Matches(Answering(Book(g, notes), Open(t)), answers + AnswersIn(notes))
  {
    hide Open;
    if notes != [] {
      BookOne(g, notes[0]);
      assert notes[..1] == [notes[0]];
      assert AnswersIn(notes[..1]) == if notes[0].Given? then [notes[0].answer] else [];
    }
  }

  /** Each reply has one answer of the application, in the order in which answers were accepted, and no
      answer is sent twice or left out. */
  lemma OneAnswerEach(es: seq<Event>)
    requires CanAll(START, es)
    ensures Matches(Answering(LedgerOf(es), Open(NextAll(START, es))), AnswersIn(Journal(START, es)))
  {
    hide NextAll, Journal, Book;
    StartAgrees();
    AnswersMatch(START, EMPTY, es, []);
    assert [] + AnswersIn(Journal(START, es)) == AnswersIn(Journal(START, es));
  }

  lemma {:induction false} AnswersMatch(l: Line, g: Ledger, es: seq<Event>, answers: seq<Answer>)
    requires Agrees(l, g) && CanAll(l, es) && Matches(Answering(g, Open(l)), answers)
    ensures Matches(Answering(Book(g, Journal(l, es)), Open(NextAll(l, es))), answers + AnswersIn(Journal(l, es)))
    decreases |es|
  {
    hide Next, Notes, Can, Matches, Book, Open, Agrees, Answering;
    AgreesValid(l, g);
    if es == [] {
      NothingMore(g, Journal(l, es));
      assert answers + [] == answers;
    } else {
      var e := es[0];
      var notes := Notes(l, e);
      NextAgrees(l, g, e);
      EventTurns(l, e);
      TurnMatches(l, g, notes, Next(l, e), answers);
      AnswersMatch(Next(l, e), Book(g, notes), es[1..], answers + AnswersIn(notes));
      var more := Journal(Next(l, e), es[1..]);
      BookConcat(g, notes, more);
      AnswersConcat(notes, more);
      assert answers + (AnswersIn(notes) + AnswersIn(more)) == answers + AnswersIn(notes) + AnswersIn(more);
    }
  }

  lemma NothingMore(g: Ledger, notes: seq<Note>)
    requires notes == []
    ensures Book(g, notes) == g && AnswersIn(notes) == []
  {
  }

  // ---------------------------------------------------------------- what comes behind a request

  /** The same line, whatever is left of a request's body, unless it is being read. */
  predicate SameButLeftover(l: Line, m: Line) {
    m == l.(body := m.body) && (l.state == ReceivingBody ==> m == l)
  }

  lemma TextIgnoresLeftover(l: Line, m: Line, n: nat)
    requires m == l.(body := m.body)
    ensures TakeText(m, n) == TakeText(l, n).(body := m.body) && TakeText(l, n).state == l.state
    ensures TakeContinue(m, n) == TakeContinue(l, n).(body := m.body) && TakeContinue(l, n).state == l.state
    ensures TakeHeaders(m, n) == TakeHeaders(l, n).(body := m.body) && TakeHeaders(l, n).state in {l.state, SendingBody}
  {
  }

  lemma SendIgnoresLeftover(l: Line, m: Line, n: nat, k: nat)
    requires m == l.(body := m.body)
    ensures Send(m, n, k) == Send(l, n, k).(body := m.body) && SendNotes(m, n, k) == SendNotes(l, n, k)
    ensures Send(l, n, k).state in {l.state, SendingBody}
  {
    hide TakeText, TakeContinue, TakeHeaders;
    TextIgnoresLeftover(l, m, n);
    TextIgnoresLeftover(l, m, k);
    TextIgnoresLeftover(TakeContinue(l, n), TakeContinue(m, n), k);
  }

  lemma ProduceIgnoresLeftover(l: Line, m: Line, w: Writing)
    requires m == l.(body := m.body) && Codec.Valid(l.enc) && Lawful(l, w)
    ensures Produce(m, w) == Produce(l, w).(body := m.body) && ProduceNotes(m, w) == ProduceNotes(l, w)
    ensures Produce(l, w).state == l.state
  {
    hide Codec.Valid, Codec.WriteBody;
  }

  lemma RespondIgnoresLeftover(l: Line, m: Line, a: Answer)
    requires m == l.(body := m.body)
    ensures Respond(m, a) == Respond(l, a).(body := m.body) && RespondNotes(m, a) == RespondNotes(l, a)
    ensures Respond(l, a).state in {l.state, SendingHeaders}
  {
  }

  lemma HeardIgnoresLeftover(l: Line, m: Line, headers: Headers)
    requires SameButLeftover(l, m)
    ensures HeardNotes(m, headers) == HeardNotes(l, headers) && SameButLeftover(Heard(l, headers), Heard(m, headers))
  {
    hide Respond, Continue;
    if headers.Unacceptable? {
      RespondIgnoresLeftover(l.(state := ReceivingHeaders), m.(state := ReceivingHeaders), headers.page);
    }
  }

  lemma EventIgnoresLeftover(l: Line, m: Line, e: Event)
    requires Codec.Valid(l.enc) && Can(l, e) && SameButLeftover(l, m)
    ensures Can(m, e) && Notes(m, e) == Notes(l, e) && SameButLeftover(Next(l, e), Next(m, e))
  {
    hide Codec.Valid, Send, SendNotes, Produce, ProduceNotes, Heard, HeardNotes, Respond, RespondNotes, RequestBody.Read;
    if m == l { return; }
    match e {
      case Text(headers) => HeardIgnoresLeftover(l, m, headers);
      case Answered(a) => RespondIgnoresLeftover(l, m, a);
      case Out(n, k) => SendIgnoresLeftover(l, m, n, k);
      case Produced(w) => ProduceIgnoresLeftover(l, m, w);
      case _ =>
    }
  }

  /** Octets that came along with a request and are not part of its body, a further request say, have no
      influence on anything the connection does after: not on what is answered, nor on what is sent,
      nor on any later request. */
  lemma {:induction false} LeftoverIsLost(l: Line, m: Line, es: seq<Event>)
    requires Codec.Valid(l.enc) && CanAll(l, es) && SameButLeftover(l, m)
    ensures CanAll(m, es) && Journal(m, es) == Journal(l, es) && SameButLeftover(NextAll(l, es), NextAll(m, es))
    decreases |es|
  {
    hide Codec.Valid, Next, Notes, Can, SameButLeftover;
    assert m.enc == l.enc by { SameEncoder(l, m); }
    if es != [] {
      EventIgnoresLeftover(l, m, es[0]);
      LeftoverIsLost(Next(l, es[0]), Next(m, es[0]), es[1..]);
    }
  }

  lemma SameEncoder(l: Line, m: Line)
    requires SameButLeftover(l, m)
    ensures m.enc == l.enc
  {
  }

  /** Two requests in one piece: the second is never heard of, whatever it is. */
  lemma SecondRequestIsLost(l: Line, q: RequestBody.Request, second: seq<Byte>, es: seq<Event>)
    requires Codec.Valid(l.enc) && (l.state == WaitingForRequest || l.state == ReceivingHeaders)
    requires !RequestBody.HasBody(q) && q.first == []
    requires CanAll(Heard(l, Whole(false, q)), es)
    ensures var there := Heard(l, Whole(false, q.(first := second)));
            && CanAll(there, es) && Journal(there, es) == Journal(Heard(l, Whole(false, q)), es)
            && NextAll(there, es).sent == NextAll(Heard(l, Whole(false, q)), es).sent
  {
    hide Codec.Valid, CanAll, NextAll, Journal;
    LeftoverIsLost(Heard(l, Whole(false, q)), Heard(l, Whole(false, q.(first := second))), es);
  }

  // ---------------------------------------------------------------- no reply is stuck

  /** A producer's last write to a socket with room for it: no more than what an announced chunk lacks. */
  function LastWrite(l: Line): (w: Writing)
    requires Codec.Valid(l.enc)
  {
    var k: nat := if l.chunked then Codec.Left(l.enc) else 0;
    Writing(seq(k, _ => 0), true, true, (8, Codec.MAX_OFFER, 8), true)
  }

  lemma LastWriteEnds(l: Line)
    requires Codec.Valid(l.enc) && l.state == SendingBody && l.completes == 0
    ensures Can(l, Produced(LastWrite(l))) && Produce(l, LastWrite(l)).completes == 1
    ensures Produce(l, LastWrite(l)).state == SendingBody
  {
    hide Codec.WriteBody, Codec.Legal;
    var w := LastWrite(l);
    if l.chunked { LastCallFinishes(l.enc, w.data, w.room); }
    WriteEnds(l, w);
  }

  /** A socket with room for the texts takes them all. */
  lemma TextsGo(l: Line)
    requires l.state == SendingHeaders && l.completes == 0
    ensures var t := Send(l, |l.rest|, |l.rest| + |l.raw|);
            && !t.sending100
            && if l.bodyless then t.completes == 1 && t.state == SendingHeaders else t.completes == 0 && t.state == SendingBody
  {
  }
}
