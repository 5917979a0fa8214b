/** The resumable in-place decoder `_nxweb_decode_chunked_stream`. */
module ChunkedDecoder {
  import opened Octets
  import opened ChunkedGrammar

  datatype Code = CR1 | LF1 | SIZE | LF2 | DATA

  /** `Undefined` marks a chunk size that overflows the signed counter, which C leaves undefined. */
  datatype Status = Bad | More | Done | Undefined

  /** The decoder's fields as a value; `left` is `chunk_bytes_left`. */
  datatype Dec = Dec(state: Code, final: bool, left: nat)

  const START := Dec(SIZE, false, 0)

  /** New fields, data octets found, status, and how many octets were looked at. */
  datatype Outcome = Outcome(dec: Dec, out: seq<Byte>, status: Status, read: nat)

  /** Reference meaning of the decoder: what one octet does to it. */
  function Step(d: Dec, c: Byte): (r: Outcome)
    ensures |r.out| <= 1 == r.read
  {
    match d.state
    case DATA =>
      if d.left > 1 then Outcome(d.(left := d.left - 1), [c], More, 1)
      else if d.left == 1 then Outcome(Dec(CR1, d.final, 0), [c], More, 1)
      else StepCR1(d.(state := CR1), c)
    case CR1 => StepCR1(d, c)
    case LF1 =>
      if c != LF then Outcome(d, [], Bad, 1)
      else if d.final then Outcome(d, [], Done, 1)
      else Outcome(d.(state := SIZE), [], More, 1)
    case SIZE =>
      if c == CR then Outcome(Dec(LF2, d.final || d.left == 0, d.left), [], More, 1)
      else if !IsHex(c) then Outcome(d, [], Bad, 1)
      else if d.left * 16 + HexVal(c) > MAX_CHUNK then Outcome(d, [], Undefined, 1)
      else Outcome(d.(left := d.left * 16 + HexVal(c)), [], More, 1)
    case LF2 =>
      if c != LF then Outcome(d, [], Bad, 1) else Outcome(d.(state := DATA), [], More, 1)
  }

  function StepCR1(d: Dec, c: Byte): (r: Outcome) {
    if c != CR then Outcome(d, [], Bad, 1) else Outcome(d.(state := LF1), [], More, 1)
  }

  /** `a`, and then `b` unless `a` has settled the status. */
  function Then(a: Outcome, b: Outcome): (r: Outcome) {
    if a.status != More then a else Outcome(b.dec, a.out + b.out, b.status, a.read + b.read)
  }

  /** What a whole input does: octets are taken one by one until one of them settles the status. */
  function Feed(d: Dec, s: seq<Byte>): (r: Outcome)
    decreases |s|
  {
    if s == [] then Outcome(d, [], More, 0)
    else var r := Step(d, s[0]); Then(r, Feed(r.dec, s[1..]))
  }

  /** What a list of fragments does, handed over until one of them settles the status. */
  ghost function FeedAll(d: Dec, parts: seq<seq<Byte>>): (r: Outcome)
    decreases |parts|
  {
    if parts == [] then Outcome(d, [], More, 0)
    else var r := Feed(d, parts[0]); Then(r, FeedAll(r.dec, parts[1..]))
  }

  // ---------------------------------------------------------------- fragmentation

  lemma ThenAssoc(a: Outcome, b: Outcome, c: Outcome)
    ensures Then(a, Then(b, c)) == Then(Then(a, b), c)
  {
    assert a.out + (b.out + c.out) == a.out + b.out + c.out;
  }

  lemma {:induction false} FeedConcat(d: Dec, s: seq<Byte>, t: seq<Byte>)
    ensures Feed(d, s + t) == Then(Feed(d, s), Feed(Feed(d, s).dec, t))
    decreases |s|
  {
    if s == [] {
      assert s + t == t;
    } else {
      var r := Step(d, s[0]);
      assert (s + t)[1..] == s[1..] + t;
      FeedConcat(r.dec, s[1..], t);
      var q := Feed(r.dec, s[1..]);
      ThenAssoc(r, q, Feed(q.dec, t));
    }
  }

  /** The decoder cannot notice how its input is cut into fragments. */
  lemma {:induction false} FragmentationIsInvisible(d: Dec, parts: seq<seq<Byte>>)
    ensures FeedAll(d, parts) == Feed(d, Concat(parts))
    decreases |parts|
  {
    if parts != [] {
      FeedConcat(d, parts[0], Concat(parts[1..]));
      FragmentationIsInvisible(Feed(d, parts[0]).dec, parts[1..]);
    }
  }

  // ---------------------------------------------------------------- runs of the automaton

  /** The fields behind `n` octets of data. */
  function AfterData(d: Dec, n: nat): (r: Dec)
    requires n <= d.left
  {
    if n < d.left then d.(left := d.left - n) else Dec(CR1, d.final, 0)
  }

  /** A run inside a chunk's data. */
  lemma {:induction false} FeedData(d: Dec, s: seq<Byte>)
    requires d.state == DATA && 0 < d.left && |s| <= d.left
    ensures Feed(d, s) == Outcome(AfterData(d, |s|), s, More, |s|)
    decreases |s|
  {
    if s != [] {
      assert s == [s[0]] + s[1..];
      if d.left > 1 {
        FeedData(d.(left := d.left - 1), s[1..]);
      }
    }
  }

  /** The size line of a chunk. */
  lemma {:induction false} FeedSize(acc: nat, size: seq<Byte>)
    requires AllHex(size) && HexAcc(acc, size) <= MAX_CHUNK
    ensures var v := HexAcc(acc, size);
            Feed(Dec(SIZE, false, acc), size + CRLF) == Outcome(Dec(DATA, v == 0, v), [], More, |size| + 2)
    decreases |size|
  {
    var s := size + CRLF;
    if size == [] {
      assert s[0] == CR && s[1] == LF && s[1..] == [LF] && [LF][1..] == [];
      var d1 := Dec(LF2, acc == 0, acc);
      assert Step(Dec(SIZE, false, acc), CR) == Outcome(d1, [], More, 1);
      assert Feed(d1, [LF]) == Outcome(Dec(DATA, acc == 0, acc), [], More, 1);
    } else {
      assert s[1..] == size[1..] + CRLF;
      FeedSize(acc * 16 + HexVal(size[0]), size[1..]);
    }
  }

  /** The line end behind a chunk's data. */
  lemma FeedLineEnd(d: Dec)
    requires (d.state == CR1 || d.state == DATA) && d.left == 0
    ensures Feed(d, CRLF) == if d.final then Outcome(Dec(LF1, true, 0), [], Done, 2)
                             else Outcome(START, [], More, 2)
  {
    assert CRLF[1..] == [LF] && [LF][1..] == [];
    var d1 := Dec(LF1, d.final, 0);
    assert Step(d, CR) == Outcome(d1, [], More, 1);
    assert Feed(d1, [LF]) == Then(Step(d1, LF), Feed(Step(d1, LF).dec, []));
  }

  lemma FeedChunk(c: Chunk)
    requires ValidChunk(c)
    ensures Feed(START, ChunkText(c)) == Outcome(START, c.data, More, |ChunkText(c)|)
  {
    FeedSize(0, c.size);
    FeedData(Dec(DATA, false, |c.data|), c.data);
    FeedLineEnd(Dec(CR1, false, 0));
    FeedConcat(START, c.size + CRLF, c.data);
    FeedConcat(START, c.size + CRLF + c.data, CRLF);
  }

  lemma {:induction false} FeedChunks(cs: seq<Chunk>)
    requires ValidChunks(cs)
    ensures Feed(START, ChunksText(cs)) == Outcome(START, Payload(cs), More, |ChunksText(cs)|)
    decreases |cs|
  {
    if cs != [] {
      FeedChunk(cs[0]);
      FeedChunks(cs[1..]);
      FeedConcat(START, ChunkText(cs[0]), ChunksText(cs[1..]));
    }
  }

  // ---------------------------------------------------------------- well-formed bodies

  /** A well-formed body decodes to its payload, with nothing behind it looked at. */
  lemma DecodesWellFormed(cs: seq<Chunk>, last: seq<Byte>, trailing: seq<Byte>)
    requires ValidChunks(cs) && LaxLast(last)
    ensures Feed(START, Body(cs, last) + trailing)
            == Outcome(Dec(LF1, true, 0), Payload(cs), Done, |Body(cs, last)|)
  {
    var a := ChunksText(cs);
    FeedChunks(cs);
    FeedSize(0, last);
    FeedLineEnd(Dec(DATA, true, 0));
    FeedConcat(START, a, last + CRLF);
    assert a + (last + CRLF) == a + last + CRLF;
    FeedConcat(START, a + last + CRLF, CRLF);
    FeedConcat(START, Body(cs, last), trailing);
  }

  /** Completion is reported with the last LF and not before, and what has come out until
      then is a prefix of the payload. */
  lemma MoreBeforeLastOctet(cs: seq<Chunk>, last: seq<Byte>, k: nat)
    requires ValidChunks(cs) && LaxLast(last)
    requires k < |Body(cs, last)|
    ensures var r := Feed(START, Body(cs, last)[..k]);
            r.status == More && r.out <= Payload(cs)
  {
    var w := Body(cs, last);
    DecodesWellFormed(cs, last, []);
    assert w + [] == w && w == w[..k] + w[k..];
    FeedConcat(START, w[..k], w[k..]);
    FeedReadsInput(START, w[..k]);
  }

  lemma {:induction false} FeedReadsInput(d: Dec, s: seq<Byte>)
    ensures Feed(d, s).read <= |s|
    decreases |s|
  {
    if s != [] {
      FeedReadsInput(Step(d, s[0]).dec, s[1..]);
    }
  }

  // ---------------------------------------------------------------- the accepted language

  lemma {:induction false} ParseSize(acc: nat, s: seq<Byte>) returns (size: seq<Byte>, t: seq<Byte>)
    requires acc <= MAX_CHUNK
    requires Feed(Dec(SIZE, false, acc), s).status == Done
    ensures AllHex(size) && HexAcc(acc, size) <= MAX_CHUNK
    ensures s == size + CRLF + t
    decreases |s|
  {
    var d := Dec(SIZE, false, acc);
    var r := Step(d, s[0]);
    if s[0] == CR {
      assert Feed(r.dec, s[1..]).status == Done;
      size, t := [], s[2..];
      assert s[1..][0] == LF;
      assert s == [] + CRLF + t;
    } else {
      var z;
      z, t := ParseSize(r.dec.left, s[1..]);
      size := [s[0]] + z;
      assert size[1..] == z;
      assert s == [s[0]] + s[1..];
    }
  }

  lemma ParseLineEnd(d: Dec, s: seq<Byte>) returns (t: seq<Byte>)
    requires (d.state == CR1 || d.state == DATA) && d.left == 0
    requires Feed(d, s).status == Done
    ensures s == CRLF + t
  {
    var r := Step(d, s[0]);
    assert Feed(r.dec, s[1..]).status == Done;
    assert s[1..][0] == LF;
    t := s[2..];
    assert s == CRLF + t;
  }

  lemma FeedAfter(d: Dec, s: seq<Byte>, t: seq<Byte>)
    requires Feed(d, s).status == More
    ensures Feed(d, s + t).status == Feed(Feed(d, s).dec, t).status
  {
    FeedConcat(d, s, t);
  }

  /** What is accepted starts with a last chunk or with a whole chunk. */
  lemma ParseChunk(s: seq<Byte>) returns (c: Chunk, u: seq<Byte>)
    requires Feed(START, s).status == Done
    ensures AllHex(c.size)
    ensures if HexAcc(0, c.size) == 0 then c.data == [] else ValidChunk(c) && Feed(START, u).status == Done
    ensures s == c.size + CRLF + c.data + CRLF + u
  {
    var size, t := ParseSize(0, s);
    FeedSize(0, size);
    FeedAfter(START, size + CRLF, t);
    var n := HexAcc(0, size);
    if n == 0 {
      u := ParseLineEnd(Dec(DATA, true, 0), t);
      c := Chunk(size, []);
    } else {
      u := ParseData(n, t);
      c := Chunk(size, t[..n]);
      assert size != [];
    }
  }

  lemma ParseData(n: nat, t: seq<Byte>) returns (u: seq<Byte>)
    requires 0 < n && Feed(Dec(DATA, false, n), t).status == Done
    ensures n <= |t| && t == t[..n] + CRLF + u
    ensures Feed(START, u).status == Done
  {
    var d, e := Dec(DATA, false, n), Dec(CR1, false, 0);
    hide Feed;
    if |t| <= n { FeedData(d, t); }
    FeedData(d, t[..n]);
    FeedAfter(d, t[..n], t[n..]);
    assert t == t[..n] + t[n..];
    u := ParseLineEnd(e, t[n..]);
    FeedLineEnd(e);
    FeedAfter(e, CRLF, u);
  }

  /** Whatever the decoder accepts is a body of the grammar, except that it also takes an
      empty size text for that of the last chunk. */
  lemma {:induction false} AcceptedIsWellFormed(s: seq<Byte>)
    returns (cs: seq<Chunk>, last: seq<Byte>, trailing: seq<Byte>)
    requires Feed(START, s).status == Done
    ensures ValidChunks(cs) && LaxLast(last)
    ensures s == Body(cs, last) + trailing
    decreases |s|
  {
    hide Feed, ChunkText;
    var c, u := ParseChunk(s);
    if HexAcc(0, c.size) == 0 {
      cs, last, trailing := [], c.size, u;
      BodyStart(c, u);
    } else {
      var rest;
      rest, last, trailing := AcceptedIsWellFormed(u);
      cs := [c] + rest;
      assert cs[1..] == rest;
      BodyCons(c, rest, last, trailing);
      assert s == ChunkText(c) + u by { BodyStart(c, u); }
    }
  }

  lemma BodyStart(c: Chunk, u: seq<Byte>)
    ensures c.size + CRLF + c.data + CRLF + u == ChunkText(c) + u
    ensures c.data == [] ==> ChunkText(c) + u == Body([], c.size) + u
  {
  }

  lemma BodyCons(c: Chunk, cs: seq<Chunk>, last: seq<Byte>, trailing: seq<Byte>)
    ensures ChunkText(c) + (Body(cs, last) + trailing) == Body([c] + cs, last) + trailing
  {
    hide ChunkText;
    assert ([c] + cs)[1..] == cs;
    Regroup(ChunkText(c), ChunksText(cs), last, trailing);
  }

  lemma Regroup(a: seq<Byte>, b: seq<Byte>, last: seq<Byte>, trailing: seq<Byte>)
    ensures a + (b + last + CRLF + CRLF + trailing) == a + b + last + CRLF + CRLF + trailing
  {
  }

  /** The language of the decoder, both ways. */
  lemma AcceptsExactly(s: seq<Byte>)
    ensures Feed(START, s).status == Done <==>
            exists cs, last, trailing :: ValidChunks(cs) && LaxLast(last) && s == Body(cs, last) + trailing
  {
    if Feed(START, s).status == Done {
      var cs, last, trailing := AcceptedIsWellFormed(s);
    }
    forall cs, last, trailing | ValidChunks(cs) && LaxLast(last) && s == Body(cs, last) + trailing
      ensures Feed(START, s).status == Done
    {
      DecodesWellFormed(cs, last, trailing);
    }
  }

  /** A size text ends at the first CR. */
  lemma SizeEnds(a: seq<Byte>, u: seq<Byte>, b: seq<Byte>, v: seq<Byte>)
    requires AllHex(a) && AllHex(b) && a + CRLF + u == b + CRLF + v
    ensures a == b && u == v
  {
    var s := a + CRLF + u;
    assert s[|a|] == CR && s[|b|] == CR;
    assert a == s[..|a|] && b == s[..|b|];
    assert u == s[|a| + 2..] && v == s[|b| + 2..];
  }

  /** The size text in front, and what is behind its line end. */
  lemma BodySplit(cs: seq<Chunk>, last: seq<Byte>, t: seq<Byte>)
    ensures Body(cs, last) + t ==
            if cs == [] then last + CRLF + (CRLF + t)
            else cs[0].size + CRLF + (cs[0].data + CRLF + (Body(cs[1..], last) + t))
  {
    if cs == [] {
      assert Body(cs, last) + t == last + CRLF + (CRLF + t);
    } else {
      hide ChunksText;
      BodyCons(cs[0], cs[1..], last, t);
      assert [cs[0]] + cs[1..] == cs;
    }
  }

  lemma DataEnds(n: nat, a: seq<Byte>, u: seq<Byte>, b: seq<Byte>, v: seq<Byte>)
    requires |a| == n == |b| && a + CRLF + u == b + CRLF + v
    ensures a == b && u == v
  {
    var s := a + CRLF + u;
    assert a == s[..n] && b == s[..n] && u == s[n + 2..] && v == s[n + 2..];
  }

  /** A text is a body in one way only, whatever follows it. */
  lemma {:induction false} BodyUnique(cs: seq<Chunk>, last: seq<Byte>, t: seq<Byte>,
                                      ds: seq<Chunk>, last': seq<Byte>, t': seq<Byte>)
    requires ValidChunks(cs) && LaxLast(last) && ValidChunks(ds) && LaxLast(last')
    requires Body(cs, last) + t == Body(ds, last') + t'
    ensures cs == ds && last == last' && t == t'
    decreases |cs|
  {
    hide Body, HexAcc;
    BodySplit(cs, last, t);
    BodySplit(ds, last', t');
    var rest := if cs == [] then CRLF + t else cs[0].data + CRLF + (Body(cs[1..], last) + t);
    var rest' := if ds == [] then CRLF + t' else ds[0].data + CRLF + (Body(ds[1..], last') + t');
    SizeEnds(if cs == [] then last else cs[0].size, rest, if ds == [] then last' else ds[0].size, rest');
    if cs != [] && ds != [] {
      DataEnds(|cs[0].data|, cs[0].data, Body(cs[1..], last) + t, ds[0].data, Body(ds[1..], last') + t');
      BodyUnique(cs[1..], last, t, ds[1..], last', t');
      assert cs == [cs[0]] + cs[1..] && ds == [ds[0]] + ds[1..];
    } else if cs == [] && ds == [] {
      assert t == (CRLF + t)[2..] && t' == (CRLF + t')[2..];
    }
  }

  /** A text of the grammar as RFC 7230 has it, with digits in the last size. */
  ghost predicate Strict(s: seq<Byte>) {
    exists cs, last, trailing :: ValidChunks(cs) && ValidLast(last) && s == Body(cs, last) + trailing
  }

  /** An accepted text is one of the strict grammar exactly if its last size text is not empty; there is
      only one way to read it. */
  lemma StrictUnlessEmpty(s: seq<Byte>) returns (cs: seq<Chunk>, last: seq<Byte>, trailing: seq<Byte>)
    requires Feed(START, s).status == Done
    ensures ValidChunks(cs) && LaxLast(last) && s == Body(cs, last) + trailing
    ensures Strict(s) <==> last != []
  {
    hide Feed, Body, LaxLast;
    cs, last, trailing := AcceptedIsWellFormed(s);
    LastDigits(last);
    if Strict(s) {
      var ds, l, t :| ValidChunks(ds) && ValidLast(l) && s == Body(ds, l) + t;
      LastDigits(l);
      BodyUnique(cs, last, trailing, ds, l, t);
    }
  }

  lemma LastDigits(last: seq<Byte>)
    ensures ValidLast(last) <==> last != [] && LaxLast(last)
  {
  }

  /** Two empty lines are accepted, and are no body of the strict grammar. */
  lemma EmptyLinesAccepted(s: seq<Byte>)
    requires s == CRLF + CRLF
    ensures Feed(START, s) == Outcome(Dec(LF1, true, 0), [], Done, 4) && !Strict(s)
  {
    var none: seq<Byte> := [];
    assert s == Body([], none) + none;
    DecodesWellFormed([], none, none);
    var cs, last, trailing := StrictUnlessEmpty(s);
    BodyUnique([], none, none, cs, last, trailing);
  }

  /** Decoding a well-formed body handed over in any fragments: the outputs concatenate to the
      payload, and the fragment that completes the body is the one that holds its last LF. */
  lemma FragmentsDecode(cs: seq<Chunk>, last: seq<Byte>, parts: seq<seq<Byte>>, k: nat)
    requires ValidChunks(cs) && LaxLast(last)
    requires Body(cs, last) <= Concat(parts) && k <= |parts|
    ensures FeedAll(START, parts).status == Done && FeedAll(START, parts).out == Payload(cs)
    ensures FeedAll(START, parts[..k]).status == Done <==> |Body(cs, last)| <= |Concat(parts[..k])|
    ensures FeedAll(START, parts[..k]).status in {More, Done}
    ensures FeedAll(START, parts[..k]).out <= Payload(cs)
  {
    var w := Body(cs, last);
    FragmentationIsInvisible(START, parts);
    DecodesWellFormed(cs, last, Concat(parts)[|w|..]);
    assert Concat(parts) == w + Concat(parts)[|w|..];
    FragmentationIsInvisible(START, parts[..k]);
    ConcatPrefix(parts, k);
    var c := Concat(parts[..k]);
    if |w| <= |c| {
      DecodesWellFormed(cs, last, c[|w|..]);
      assert c == w + c[|w|..];
    } else {
      MoreBeforeLastOctet(cs, last, |c|);
      assert c == w[..|c|];
    }
  }

  lemma {:induction false} ConcatPrefix(parts: seq<seq<Byte>>, k: nat)
    requires k <= |parts|
    ensures Concat(parts[..k]) <= Concat(parts)
    decreases k
  {
    if k > 0 {
      assert parts[..k][1..] == parts[1..][..k - 1];
      ConcatPrefix(parts[1..], k - 1);
    }
  }

  // ---------------------------------------------------------------- the in-place decoder

  /** `whole` is the outcome of feeding `s`; after `read` octets of it the decoder has fields
      `d` and has produced `out`. */
  ghost predicate Reached(whole: Outcome, s: seq<Byte>, read: nat, d: Dec, out: seq<Byte>) {
    read <= |s| && whole == Then(Outcome(d, out, More, read), Feed(d, s[read..]))
  }

  lemma ReachedOctet(whole: Outcome, s: seq<Byte>, read: nat, d: Dec, out: seq<Byte>)
    requires Reached(whole, s, read, d, out) && read < |s| && d.state != DATA
    ensures var r := Step(d, s[read]);
            if r.status == More then Reached(whole, s, read + 1, r.dec, out)
            else whole == Outcome(r.dec, out, r.status, read + 1)
  {
    var r := Step(d, s[read]);
    assert s[read..][1..] == s[read + 1..];
    ThenAssoc(Outcome(d, out, More, read), r, Feed(r.dec, s[read + 1..]));
    assert out + [] == out;
  }

  lemma ReachedData(whole: Outcome, s: seq<Byte>, read: nat, d: Dec, out: seq<Byte>, n: nat)
    requires Reached(whole, s, read, d, out) && read < |s| && d.state == DATA
    requires n == if |s| - read < d.left then |s| - read else d.left
    ensures Reached(whole, s, read + n, AfterData(d, n), out + s[read..read + n])
  {
    var rest, now, later := s[read..], s[read..read + n], s[read + n..];
    if d.left > 0 {
      assert rest == now + later;
      FeedData(d, now);
      FeedConcat(d, now, later);
      ThenAssoc(Outcome(d, out, More, read), Feed(d, now), Feed(AfterData(d, n), later));
    } else { // with nothing left the state behaves like the one behind the data
      assert Step(d, rest[0]) == Step(d.(state := CR1), rest[0]);
      assert out + now == out;
    }
  }

  /** The buffer `b` in the middle of decoding `s`: in decoding mode the data found fills
      `b[..d]`, in monitoring mode nothing has moved; what is unread fills `b[p..end]`. */
  ghost predicate Layout(b: seq<Byte>, s: seq<Byte>, monitor: bool, out: seq<Byte>,
                         read: nat, d: nat, p: nat, end: nat)
  {
    && d <= p <= end <= |s| <= |b| && read <= |s| && end - p == |s| - read
    && b[p..end] == s[read..]
    && (if monitor then end == |s| && b[..|s|] == s else b[..d] == out)
  }

  lemma LayoutRoom(b: seq<Byte>, s: seq<Byte>, monitor: bool, out: seq<Byte>, read: nat, d: nat, p: nat, end: nat)
    requires Layout(b, s, monitor, out, read, d, p, end) && p < end
    ensures read < |s| <= |b| && end - p == |s| - read && d <= p < end <= |b|
  {
  }

  lemma LayoutData(b: seq<Byte>, s: seq<Byte>, monitor: bool, out: seq<Byte>,
                   read: nat, d: nat, p: nat, end: nat, n: nat)
    requires Layout(b, s, monitor, out, read, d, p, end) && n <= end - p && (!monitor ==> p == d)
    ensures Layout(b, s, monitor, out + s[read..read + n], read + n, p + n, p + n, end)
  {
    assert b[p + n..end] == b[p..end][n..];
    if !monitor {
      assert b[..p + n] == b[..p] + b[p..end][..n];
      assert s[read..][..n] == s[read..read + n];
    }
  }

  lemma LayoutOctet(b: seq<Byte>, s: seq<Byte>, monitor: bool, out: seq<Byte>,
                    read: nat, d: nat, p: nat, end: nat)
    requires Layout(b, s, monitor, out, read, d, p, end) && p < end
    ensures b[p] == s[read]
    ensures Layout(b, s, monitor, out, read + 1, d, p + 1, end)
  {
    assert b[p] == b[p..end][0];
    assert b[p + 1..end] == b[p..end][1..];
  }

  /** `memmove` towards the front of a buffer, over the gap a size line leaves. */
  method CloseGap(buf: array<Byte>, d: nat, p: nat, end: nat,
                  ghost s: seq<Byte>, ghost out: seq<Byte>, ghost read: nat)
    requires Layout(buf[..], s, false, out, read, d, p, end)
    modifies buf
    ensures Layout(buf[..], s, false, out, read, d, d, end - (p - d))
    ensures buf[|s|..] == old(buf[|s|..])
  {
    forall i | 0 <= i < end - p { buf[d + i] := buf[p + i]; }
    assert buf[..][..d] == old(buf[..])[..d];
    assert buf[..][d..end - (p - d)] == old(buf[..])[p..end];
  }

  class Decoder {
    var state: Code
    var final: bool
    var left: nat
    const monitorOnly: bool

    constructor (monitorOnly: bool)
      ensures Fields() == START && this.monitorOnly == monitorOnly
    {
      state, final, left := SIZE, false, 0;
      this.monitorOnly := monitorOnly;
    }

    function Fields(): (r: Dec)
      reads this
    {
      Dec(state, final, left)
    }

    /** The cases of the decoder's switch that look at a single octet. */
    method Octet(c: Byte) returns (status: Status)
      requires state != DATA
      modifies this
      ensures var r := Step(old(Fields()), c);
              Fields() == r.dec && status == r.status && r.out == []
    {
      match state
      case CR1 =>
        if c != CR { return Bad; }
        state := LF1;
        return More;
      case LF1 =>
        if c != LF { return Bad; }
        if final { return Done; }
        state := SIZE;
        return More;
      case SIZE =>
        if c == CR {
          if left == 0 { final := true; }
          state := LF2;
          return More;
        }
        if !IsHex(c) { return Bad; }
        if left * 16 + HexVal(c) > MAX_CHUNK { return Undefined; }
        left := left * 16 + HexVal(c);
        return More;
      case LF2 =>
        if c != LF { return Bad; }
        state := DATA;
        return More;
    }

    /** The data case of the switch: `n` of the `avail` octets at hand belong to the chunk. */
    method Data(avail: nat) returns (n: nat)
      requires state == DATA
      modifies this
      ensures n == if avail < old(left) then avail else old(left)
      ensures Fields() == AfterData(old(Fields()), n)
    {
      if avail >= left {
        n := left;
        left := 0;
        state := CR1;
      } else {
        n := avail;
        left := left - avail;
      }
    }

    /** The decoder in the middle of `buf`, the octets `s` of which have outcome `whole`. */
    ghost predicate Midway(buf: array<Byte>, s: seq<Byte>, whole: Outcome, status: Status,
                           out: seq<Byte>, read: nat, d: nat, p: nat, end: nat)
      reads this, buf
    {
      && Layout(buf[..], s, monitorOnly, out, read, d, p, end)
      && (!monitorOnly && state == DATA ==> p == d)
      && (if status == More then Reached(whole, s, read, Fields(), out)
          else whole.dec == Fields() && whole.out == out && whole.status == status)
    }

    method DataRound(buf: array<Byte>, d: nat, p: nat, end: nat,
                     ghost s: seq<Byte>, ghost whole: Outcome, ghost out: seq<Byte>, ghost read: nat)
      returns (p': nat, ghost out': seq<Byte>, ghost read': nat)
      requires Midway(buf, s, whole, More, out, read, d, p, end) && p < end && state == DATA
      modifies this
      ensures Midway(buf, s, whole, More, out', read', p', p', end)
      ensures p <= p' && (p' < end ==> state != DATA)
    {
      hide Reached, Layout;
      LayoutRoom(buf[..], s, monitorOnly, out, read, d, p, end);
      ghost var before := Fields();
      var n := Data(end - p);
      ReachedData(whole, s, read, before, out, n);
      LayoutData(buf[..], s, monitorOnly, out, read, d, p, end, n);
      out', read', p' := out + s[read..read + n], read + n, p + n;
    }

    method OctetRound(buf: array<Byte>, d: nat, p: nat, end: nat,
                      ghost s: seq<Byte>, ghost whole: Outcome, ghost out: seq<Byte>, ghost read: nat)
      returns (status: Status, p': nat, end': nat, ghost read': nat)
      requires Midway(buf, s, whole, More, out, read, d, p, end) && p < end && state != DATA
      modifies this, buf
      ensures Midway(buf, s, whole, status, out, read', d, p', end')
      ensures status == More ==> end' - p' < end - p
      ensures monitorOnly ==> buf[..] == old(buf[..])
      ensures buf[|s|..] == old(buf[|s|..])
    {
      hide Reached, Layout;
      LayoutRoom(buf[..], s, monitorOnly, out, read, d, p, end);
      p', end', read' := p, end, read;
      ReachedOctet(whole, s, read, Fields(), out);
      LayoutOctet(buf[..], s, monitorOnly, out, read, d, p, end);
      status := Octet(buf[p]);
      if status == More {
        p', read' := p + 1, read + 1;
        if state == DATA && !monitorOnly {
          CloseGap(buf, d, p', end, s, out, read');
          end' := end - (p' - d);
          p' := d;
        }
      }
    }

    /** Decodes `buf[..len]` in place.  In decoding mode the data found is moved to the front
        of the buffer; in monitoring mode the buffer is left alone.  The new fields and the
        status are those of `Feed`, so they are the same in both modes and for every cut. */
    method Decode(buf: array<Byte>, len: nat) returns (status: Status, newLen: nat)
      requires len <= buf.Length
      modifies this, buf
      ensures var r := Feed(old(Fields()), old(buf[..len]));
              && Fields() == r.dec && status == r.status
              && (!monitorOnly ==> |r.out| <= len && buf[..|r.out|] == r.out)
              && newLen == if !monitorOnly && status in {More, Done} then |r.out| else len
      ensures monitorOnly ==> buf[..] == old(buf[..])
      ensures buf[len..] == old(buf[len..])
    {
      ghost var s := buf[..len];
      ghost var whole := Feed(Fields(), s);
      ghost var out: seq<Byte> := [];
      ghost var read: nat := 0;
      var p: nat, d: nat, end: nat := 0, 0, len;
      status := More;
      assert s[0..] == s;
      while p < end && status == More
        invariant Midway(buf, s, whole, status, out, read, d, p, end)
        invariant monitorOnly ==> buf[..] == old(buf[..])
        invariant buf[len..] == old(buf[len..])
        decreases status == More, end - p, state == DATA
      {
        if state == DATA {
          p, out, read := DataRound(buf, d, p, end, s, whole, out, read);
          d := p;
        } else {
          status, p, end, read := OctetRound(buf, d, p, end, s, whole, out, read);
        }
      }
      newLen := if !monitorOnly && (status == More || status == Done) then d else len;
    }
  }
}
