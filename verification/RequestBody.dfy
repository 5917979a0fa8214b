/** The request body on its way to its reader: octets that came along with the headers first, then
    octets from the socket, decoded in the reader's own buffer if the body is chunked. */
module RequestBody {
  import opened Octets
  import opened Sequences
  import opened ChunkedGrammar
  import Decoder = ChunkedDecoder

  /** What the headers say of the body, and the octets that came behind them. */
  datatype Request = Request(chunked: bool, length: int, first: seq<Byte>)

  predicate HasBody(q: Request) {
    q.chunked || q.length != 0
  }

  /** `first_body_chunk`, `cdstate`, `chunked_content_complete` and `content_received`. */
  datatype Incoming = Incoming(chunked: bool, length: int, first: seq<Byte>, dec: Decoder.Dec, done: bool, received: nat)

  function Begin(q: Request): (r: Incoming) {
    Incoming(q.chunked, if q.chunked then -1 else q.length, q.first, Decoder.START, false, 0)
  }

  /** `is_request_body_complete` */
  predicate IsWhole(b: Incoming) {
    (b.length > 0 && b.received >= b.length) || b.done
  }

  /** Octets `s` are now in the reader's buffer; those of a chunked body are decoded there. If the decoder
      rejects them the reader is given as many octets; what they are is not specified then, since the
      decoder may have moved some of them already. */
  function Pass(b: Incoming, s: seq<Byte>): (r: (Incoming, seq<Byte>))
    ensures |r.1| <= |s|
  {
    if !b.chunked then (b.(received := b.received + |s|), s)
    else
      DecodedFits(b.dec, s);
      var r := Decoder.Feed(b.dec, s);
      var out := if r.status == Decoder.More || r.status == Decoder.Done then r.out else s; // stands for |s| octets
      (b.(dec := r.dec, done := b.done || r.status == Decoder.Done, received := b.received + |out|), out)
  }

  lemma {:induction false} DecodedFits(d: Decoder.Dec, s: seq<Byte>)
    ensures |Decoder.Feed(d, s).out| <= |s|
    decreases |s|
  {
    if s != [] { DecodedFits(Decoder.Step(d, s[0]).dec, s[1..]); }
  }

  /** The reader has room for `size` octets; the socket has the octets `arrived`. */
  datatype Call = Call(size: nat, arrived: seq<Byte>)

  /** What a call leaves behind: the octets in the reader's buffer, the end flag, and how many octets
      were taken from `first` and from the socket. */
  datatype Got = Got(body: Incoming, out: seq<Byte>, eof: bool, fromFirst: nat, fromSocket: nat)

  /** The first half of `req_body_out_read`. */
  function TakeFirst(b: Incoming, size: nat): (g: Got)
    ensures g.fromFirst <= |b.first| && |g.out| <= g.fromFirst <= size
  {
    if b.first == [] then Got(b, [], false, 0, 0)
    else
      var k := Min(|b.first|, size);
      var (b', out) := Pass(b.(first := b.first[k..]), b.first[..k]);
      Got(b', out, IsWhole(b'), k, 0)
  }

  /** The reader has room left for octets of the socket. */
  predicate Asks(b: Incoming, size: nat) {
    var f := TakeFirst(b, size);
    !f.eof && |f.out| < size
  }

  /** `req_body_out_read` in the state that receives a body. */
  function Read(b: Incoming, c: Call): (g: Got)
    ensures g.fromFirst <= |b.first| && g.fromSocket <= |c.arrived| && |g.out| <= c.size
  {
    var f := TakeFirst(b, c.size);
    if !Asks(b, c.size) then f
    else
      var n := Min(c.size - |f.out|, |c.arrived|);
      var (b', out) := Pass(f.body, c.arrived[..n]);
      Got(b', f.out + out, IsWhole(b'), f.fromFirst, n)
  }

  // ---------------------------------------------------------------- a whole body

  /** A body so far: what has arrived of it in order, what has been put through the decoder, what the
      reader has been given, and whether it has been told the end. */
  datatype Tale = Tale(body: Incoming, stream: seq<Byte>, fed: seq<Byte>, out: seq<Byte>, eof: bool)

  function Once(q: Request): (r: Tale) {
    Tale(Begin(q), q.first, [], [], false)
  }

  function One(t: Tale, c: Call): (r: Tale) {
    if t.eof then t
    else
      var g := Read(t.body, c);
      Tale(g.body, t.stream + c.arrived[..g.fromSocket],
           t.fed + t.body.first[..g.fromFirst] + c.arrived[..g.fromSocket], t.out + g.out, g.eof)
  }

  /** The reader calls again and again until it is told the end. */
  function All(t: Tale, calls: seq<Call>): (r: Tale)
    decreases |calls|
  {
    if calls == [] then t else One(All(t, calls[..|calls| - 1]), calls[|calls| - 1])
  }

  /** What the reader has is what the decoder makes of the octets it was fed, unless it rejected them;
      the end is told just when the body is complete. */
  ghost predicate Decoded(t: Tale) {
    && |t.out| == t.body.received
    && if t.body.chunked then
         && t.body.length == -1
         && var r := Decoder.Feed(Decoder.START, t.fed);
            && (r.status == Decoder.More ==> t.out == r.out && t.body.dec == r.dec && !t.eof && !t.body.done)
            && (r.status == Decoder.Done ==> t.out == r.out && t.eof)
       else t.out == t.fed && !t.body.done && (t.eof <==> 0 < t.body.length <= |t.fed|)
  }

  /** One part of a call. */
  ghost function PassOne(t: Tale, s: seq<Byte>, first: seq<Byte>): (r: Tale) {
    var (b, out) := Pass(t.body.(first := first), s);
    Tale(b, t.stream, t.fed + s, t.out + out, IsWhole(b))
  }

  lemma PassDecoded(t: Tale, s: seq<Byte>, first: seq<Byte>)
    requires Decoded(t) && !t.eof
    ensures Decoded(PassOne(t, s, first))
  {
    if t.body.chunked {
      Decoder.FeedConcat(Decoder.START, t.fed, s);
    }
  }

  lemma OneInParts(t: Tale, c: Call)
    requires !t.eof
    ensures var g := Read(t.body, c);
            var f := if t.body.first == [] then t else PassOne(t, t.body.first[..g.fromFirst], t.body.first[g.fromFirst..]);
            One(t, c) == if f.eof || c.size == |f.out| - |t.out| then f
                         else PassOne(f, c.arrived[..g.fromSocket], f.body.first).(stream := t.stream + c.arrived[..g.fromSocket])
  {
    var g := Read(t.body, c);
    var first, got := t.body.first[..g.fromFirst], c.arrived[..g.fromSocket];
    assert t.fed + [] == t.fed && t.out + [] == t.out && t.stream + [] == t.stream;
    var f := TakeFirst(t.body, c.size);
    assert t.body.(first := t.body.first) == t.body;
    if !f.eof && c.size != |f.out| {
      var out := Pass(f.body, got).1;
      assert t.out + f.out + out == t.out + (f.out + out);
    }
  }

  /** However much the reader has room for and however much has arrived at each call: the reader has been
      given what the octets fed to the decoder decode to, and has been told the end exactly when they
      are a complete body. */
  lemma {:induction false} ReaderHasDecoded(q: Request, calls: seq<Call>)
    ensures Decoded(All(Once(q), calls))
    decreases |calls|
  {
    hide Pass;
    if calls != [] {
      var n := |calls| - 1;
      ReaderHasDecoded(q, calls[..n]);
      var t, c := All(Once(q), calls[..n]), calls[n];
      if !t.eof {
        OneInParts(t, c);
        var g := Read(t.body, c);
        PassDecoded(t, t.body.first[..g.fromFirst], t.body.first[g.fromFirst..]);
        var f := if t.body.first == [] then t else PassOne(t, t.body.first[..g.fromFirst], t.body.first[g.fromFirst..]);
        if !f.eof { PassDecoded(f, c.arrived[..g.fromSocket], f.body.first); }
      }
    }
  }

  /** The octets fed to the decoder are those that arrived, in order. */
  ghost predicate InOrder(t: Tale) {
    t.fed + t.body.first == t.stream
  }

  /** Octets of the socket go before octets that came along with the headers. */
  predicate Overtakes(b: Incoming, c: Call) {
    Read(b, c).fromFirst < |b.first| && Read(b, c).fromSocket > 0
  }

  /** When that happens: the octets that came with the headers do not fit, and the reader has room
      again for the socket's octets because decoding made them fewer. */
  lemma OvertakesWhen(b: Incoming, c: Call)
    requires b.chunked ==> b.length == -1 && !b.done
    ensures Overtakes(b, c) <==>
              && b.chunked && c.size < |b.first| && c.arrived != []
              && var r := Decoder.Feed(b.dec, b.first[..c.size]); r.status == Decoder.More && |r.out| < c.size
  {
  }

  lemma FirstLeft(b: Incoming, c: Call)
    ensures Read(b, c).body.first == b.first[Read(b, c).fromFirst..]
  {
  }

  /** One call keeps the order exactly if what it leaves waiting and what it takes from the socket can be
      exchanged. */
  lemma OneKeepsOrder(t: Tale, c: Call)
    requires InOrder(t) && !t.eof
    ensures var g := Read(t.body, c);
            var rest, got := t.body.first[g.fromFirst..], c.arrived[..g.fromSocket];
            && (InOrder(One(t, c)) <==> got + rest == rest + got)
            && (!Overtakes(t.body, c) ==> InOrder(One(t, c)))
  {
    hide Read;
    FirstLeft(t.body, c);
    var g := Read(t.body, c);
    var taken, rest, got := t.body.first[..g.fromFirst], t.body.first[g.fromFirst..], c.arrived[..g.fromSocket];
    assert taken + rest == t.body.first;
    var lead := t.fed + taken;
    assert One(t, c).fed + rest == lead + (got + rest);
    assert t.stream + got == lead + (rest + got);
    assert (lead + (got + rest))[|lead|..] == got + rest && (lead + (rest + got))[|lead|..] == rest + got;
  }

  ghost predicate NoneOvertakes(q: Request, calls: seq<Call>) {
    forall i :: 0 <= i < |calls| ==> !Overtakes(All(Once(q), calls[..i]).body, calls[i])
  }

  lemma {:induction false} KeepsOrder(q: Request, calls: seq<Call>)
    requires NoneOvertakes(q, calls)
    ensures InOrder(All(Once(q), calls))
    decreases |calls|
  {
    hide Overtakes, One;
    if calls == [] {
      assert Once(q).fed + q.first == q.first;
    } else {
      var n := |calls| - 1;
      assert forall i :: 0 <= i < n ==> calls[..n][..i] == calls[..i];
      KeepsOrder(q, calls[..n]);
      var t := All(Once(q), calls[..n]);
      assert !Overtakes(t.body, calls[n]);
      if t.eof { EndStays(t, calls[n]); } else { OneKeepsOrder(t, calls[n]); }
    }
  }

  lemma EndStays(t: Tale, c: Call)
    requires t.eof
    ensures One(t, c) == t
  {
  }

  /** A well-formed chunked body, whatever follows it, reaches the reader as its payload and the end is
      told with its last octet, if no octets overtake others. */
  lemma ChunkedArrives(q: Request, calls: seq<Call>, cs: seq<Chunk>, last: seq<Byte>, trailing: seq<Byte>)
    requires q.chunked && ValidChunks(cs) && LaxLast(last) && NoneOvertakes(q, calls)
    requires All(Once(q), calls).stream <= Body(cs, last) + trailing
    ensures var t := All(Once(q), calls);
            if |t.fed| >= |Body(cs, last)| then t.eof && t.out == Payload(cs) else !t.eof && t.out <= Payload(cs)
  {
    hide Decoder.Feed, Body, Overtakes, All;
    var t := All(Once(q), calls);
    KeepsOrder(q, calls);
    ReaderHasDecoded(q, calls);
    AllChunked(q, calls);
    var text := Body(cs, last);
    var k := |t.fed|;
    assert t.fed == (text + trailing)[..k];
    if k >= |text| {
      assert t.fed == text + trailing[..k - |text|];
      Decoder.DecodesWellFormed(cs, last, trailing[..k - |text|]);
    } else {
      assert t.fed == text[..k];
      Decoder.MoreBeforeLastOctet(cs, last, k);
    }
  }

  lemma {:induction false} AllChunked(q: Request, calls: seq<Call>)
    ensures All(Once(q), calls).body.chunked == q.chunked && All(Once(q), calls).body.length == Begin(q).length
    decreases |calls|
  {
    if calls != [] { AllChunked(q, calls[..|calls| - 1]); }
  }

  /** A body of known length reaches the reader in order, and the end is told as soon as it is all there. */
  lemma PlainArrives(q: Request, calls: seq<Call>)
    requires !q.chunked && q.length > 0
    ensures var t := All(Once(q), calls);
            && InOrder(t) && t.out == t.fed <= t.stream && (t.eof <==> q.length <= |t.out|)
  {
    ReaderHasDecoded(q, calls);
    AllChunked(q, calls);
    forall i | 0 <= i < |calls| ensures !Overtakes(All(Once(q), calls[..i]).body, calls[i]) {
      AllChunked(q, calls[..i]);
      OvertakesWhen(All(Once(q), calls[..i]).body, calls[i]);
    }
    KeepsOrder(q, calls);
  }

  // ---------------------------------------------------------------- more than a body of known length

  /** Octets of a body of known length that the reader has still to be given. */
  function DueOf(b: Incoming): (r: int) {
    b.length - b.received
  }

  /** A call that goes beyond the end of the body: what came with the headers does, as far as the reader
      has room for it, or it does not reach the end and the reader has room beyond the end for
      what has arrived. */
  predicate GoesBeyond(b: Incoming, c: Call) {
    var due, k := DueOf(b), Min(|b.first|, c.size);
    due < k || (k < due < Min(c.size, |b.first| + |c.arrived|))
  }

  /** The reader is given more than the body by a call exactly under that condition, which can be told
      before the call; a reader that has no more room than what is due is not. */
  lemma SurplusWhen(t: Tale, c: Call)
    requires Decoded(t) && !t.eof && !t.body.chunked && t.body.length > 0
    ensures |One(t, c).out| > t.body.length <==> GoesBeyond(t.body, c)
    ensures c.size <= DueOf(t.body) ==> !GoesBeyond(t.body, c)
  {
  }

  /** The room that the server's own memory buffer offers: it is made for one octet more than the body, and
      holds its offer back only if that would fill it further. */
  function BufferRoom(length: nat, got: nat, room: nat): (size: nat)
    requires got < length
    ensures size == if room <= length - got + 1 then room else length - got
  {
    var most := length + 1;
    if got + room > most then most - got - 1 else room
  }

  /** That buffer takes at most one octet from behind the body, exactly if its room is that much larger
      than what is due and the octet is there, unless the octets that came with the headers
      complete the body. */
  lemma BufferedSurplus(t: Tale, room: nat, arrived: seq<Byte>)
    requires Decoded(t) && !t.eof && !t.body.chunked && t.body.length > 0
    ensures |t.out| < t.body.length
    ensures var due := DueOf(t.body);
            var after := |One(t, Call(BufferRoom(t.body.length, |t.out|, room), arrived)).out|;
            && after <= t.body.length + 1
            && (after > t.body.length <==>
                  room == due + 1 && |t.body.first| != due && |t.body.first| + |arrived| > due)
  {
    SurplusWhen(t, Call(BufferRoom(t.body.length, |t.out|, room), arrived));
  }

  /** A call of the run goes beyond the end of the body. */
  ghost predicate SomeGoesBeyond(q: Request, calls: seq<Call>) {
    exists i: nat :: i < |calls| && BeyondAt(q, calls, i)
  }

  ghost predicate BeyondAt(q: Request, calls: seq<Call>, i: nat)
    requires i < |calls|
  {
    var t := All(Once(q), calls[..i]);
    !t.eof && GoesBeyond(t.body, calls[i])
  }

  /** Over any calls the reader of a body of known length is given more than the body exactly if one of
      them went beyond its end; otherwise, once told the end, it has the body and nothing else. */
  lemma {:induction false} SurplusOverCalls(q: Request, calls: seq<Call>)
    requires !q.chunked && q.length > 0
    ensures var t := All(Once(q), calls);
            && (|t.out| > q.length <==> SomeGoesBeyond(q, calls))
            && (t.eof && !SomeGoesBeyond(q, calls) ==> q.length <= |t.stream| && t.out == t.stream[..q.length])
    decreases |calls|
  {
    hide One, GoesBeyond;
    PlainArrives(q, calls);
    if calls != [] {
      var n := |calls| - 1;
      SurplusOverCalls(q, calls[..n]);
      ReaderHasDecoded(q, calls[..n]);
      AllChunked(q, calls[..n]);
      PlainArrives(q, calls[..n]);
      var t := All(Once(q), calls[..n]);
      BeyondSoFar(q, calls);
      if t.eof { EndStays(t, calls[n]); } else { SurplusWhen(t, calls[n]); }
    }
  }

  lemma BeyondSoFar(q: Request, calls: seq<Call>)
    requires calls != []
    ensures var n := |calls| - 1;
            SomeGoesBeyond(q, calls) <==> SomeGoesBeyond(q, calls[..n]) || BeyondAt(q, calls, n)
  {
    hide GoesBeyond, All;
    var n := |calls| - 1;
    assert forall i :: 0 <= i <= n ==> calls[..n][..i] == calls[..i];
    forall i: nat | i < n ensures BeyondAt(q, calls[..n], i) <==> BeyondAt(q, calls, i) { }
  }

  // ---------------------------------------------------------------- witnesses

  /** The chunk of five octets "hello", of which the first three came with the headers; the reader has
      room for five octets. It is given "he" and then "lo" and the line end behind it. */
  lemma Overtaken(q: Request, c: Call)
    requires q == Request(true, 0, [53, CR, LF, 104, 101, 108])
    requires c == Call(5, [108, 111, CR, LF])
    ensures Overtakes(Begin(q), c) && !InOrder(One(Once(q), c))
    ensures One(Once(q), c).out == [104, 101, 108, 111, CR]
  {
    hide Decoder.Feed;
    FiveDecoded(q.first[..5], c.arrived[..3]);
    assert InOrder(Once(q)) by { assert [] + q.first == q.first; }
    OneKeepsOrder(Once(q), c);
    assert ([108, 111, CR] + [108])[1] == 111 && ([108] + [108, 111, CR])[1] == 108;
  }

  lemma FiveDecoded(first: seq<Byte>, got: seq<Byte>)
    requires first == [53, CR, LF, 104, 101] && got == [108, 111, CR]
    ensures var inData := Decoder.Dec(Decoder.DATA, false, 3);
            && Decoder.Feed(Decoder.START, first) == Decoder.Outcome(inData, [104, 101], Decoder.More, 5)
            && Decoder.Feed(inData, got) == Decoder.Outcome(Decoder.Dec(Decoder.CR1, false, 0), got, Decoder.More, 3)
  {
    FiveIsSize();
    hide Decoder.Feed, HexAcc;
    Decoder.FeedSize(0, FIVE);
    Decoder.FeedConcat(Decoder.START, FIVE + CRLF, [104, 101]);
    Decoder.FeedData(Decoder.Dec(Decoder.DATA, false, 5), [104, 101]);
    Decoder.FeedData(Decoder.Dec(Decoder.DATA, false, 3), got);
    assert first == FIVE + CRLF + [104, 101];
  }

  const FIVE: seq<Byte> := [53]

  lemma FiveIsSize()
    ensures AllHex(FIVE) && HexAcc(0, FIVE) == 5
  {
    assert HexAcc(0, FIVE) == HexAcc(5, FIVE[1..]) == 5;
  }

  /** A request behind a body of two octets goes to the body's reader. */
  lemma Surplus(q: Request, c: Call)
    requires q == Request(false, 2, [104, 105, 71]) && c == Call(10, [])
    ensures One(Once(q), c).eof && One(Once(q), c).out == [104, 105, 71]
  {
  }
}
