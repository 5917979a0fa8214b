/** The parser at work on its buffer: strings are unescaped in place while it reads on, and the tree is
    the one that the untouched text stands for. */
module JsonInPlace {
  import opened Octets
  import opened JsonStrings
  import opened JsonParser

  /** A node of the tree: a string or key is where its text starts in the buffer. */
  datatype Node =
    | NullNode | BoolNode(b: bool) | IntNode(n: int) | StrNode(at: nat)
    | ArrNode(items: seq<Node>) | ObjNode(members: seq<Child>)

  datatype Child = Child(key: nat, node: Node)

  /** A node (or none, at a closing bracket) and where reading goes on. */
  datatype Found = Failed | Floating | Found(node: Option<Node>, next: nat)

  /** The text lies NUL-terminated at `at`, below `hi`. */
  ghost predicate LiesAt(b: seq<Byte>, at: nat, text: seq<Byte>, hi: nat) {
    at + |text| < hi <= |b| && b[at..at + |text|] == text && b[at + |text|] == 0
  }

  /** A node with the buffer it points into is the tree `v`. */
  ghost predicate Stands(b: seq<Byte>, node: Node, v: Json, hi: nat)
    decreases node
  {
    match node
    case NullNode => v == Null
    case BoolNode(x) => v == Bool(x)
    case IntNode(x) => v == Int(x)
    case StrNode(at) => v.Str? && LiesAt(b, at, v.text, hi)
    case ArrNode(items) => v.Arr? && |items| == |v.items|
                           && forall i :: 0 <= i < |items| ==> Stands(b, items[i], v.items[i], hi)
    case ObjNode(members) => v.Obj? && |members| == |v.members|
                             && forall i :: 0 <= i < |members| ==> LiesAt(b, members[i].key, v.members[i].key, hi)
                                                                   && Stands(b, members[i].node, v.members[i].value, hi)
  }

  ghost predicate StandsFor(b: seq<Byte>, node: Option<Node>, v: Option<Json>, hi: nat) {
    if node.None? then v.None? else v.Some? && Stands(b, node.value, v.value, hi)
  }

  ghost predicate ItemsStand(b: seq<Byte>, items: seq<Node>, vs: seq<Json>, hi: nat) {
    |items| == |vs| && forall i :: 0 <= i < |items| ==> Stands(b, items[i], vs[i], hi)
  }

  ghost predicate MembersStand(b: seq<Byte>, members: seq<Child>, vs: seq<Member>, hi: nat) {
    && |members| == |vs|
    && forall i :: 0 <= i < |members| ==> LiesAt(b, members[i].key, vs[i].key, hi) && Stands(b, members[i].node, vs[i].value, hi)
  }

  lemma LiesKept(b: seq<Byte>, c: seq<Byte>, at: nat, text: seq<Byte>, hi: nat, hi': nat)
    requires LiesAt(b, at, text, hi) && hi <= hi' <= |c| && c[..hi] == b[..hi]
    ensures LiesAt(c, at, text, hi')
  {
    assert c[at..at + |text|] == c[..hi][at..at + |text|] && b[at..at + |text|] == b[..hi][at..at + |text|];
    assert c[at + |text|] == c[..hi][at + |text|] && b[at + |text|] == b[..hi][at + |text|];
  }

  /** What is written behind it does not change a tree. */
  lemma {:induction false} StandsKept(b: seq<Byte>, c: seq<Byte>, node: Node, v: Json, hi: nat, hi': nat)
    requires Stands(b, node, v, hi) && hi <= hi' <= |c| && hi <= |b| && c[..hi] == b[..hi]
    ensures Stands(c, node, v, hi')
    decreases node
  {
    match node {
      case StrNode(at) => LiesKept(b, c, at, v.text, hi, hi');
      case ArrNode(items) =>
        forall i | 0 <= i < |items| ensures Stands(c, items[i], v.items[i], hi') {
          StandsKept(b, c, items[i], v.items[i], hi, hi');
        }
      case ObjNode(members) =>
        forall i | 0 <= i < |members|
          ensures LiesAt(c, members[i].key, v.members[i].key, hi') && Stands(c, members[i].node, v.members[i].value, hi')
        {
          LiesKept(b, c, members[i].key, v.members[i].key, hi, hi');
          StandsKept(b, c, members[i].node, v.members[i].value, hi, hi');
        }
      case _ =>
    }
  }

  lemma ItemsKept(b: seq<Byte>, c: seq<Byte>, items: seq<Node>, vs: seq<Json>, hi: nat, hi': nat)
    requires ItemsStand(b, items, vs, hi) && hi <= hi' <= |c| && hi <= |b| && c[..hi] == b[..hi]
    ensures ItemsStand(c, items, vs, hi')
  {
    hide Stands;
    forall i | 0 <= i < |items| ensures Stands(c, items[i], vs[i], hi') { StandsKept(b, c, items[i], vs[i], hi, hi'); }
  }

  lemma MembersKept(b: seq<Byte>, c: seq<Byte>, members: seq<Child>, vs: seq<Member>, hi: nat, hi': nat)
    requires MembersStand(b, members, vs, hi) && hi <= hi' <= |c| && hi <= |b| && c[..hi] == b[..hi]
    ensures MembersStand(c, members, vs, hi')
  {
    hide Stands, LiesAt;
    forall i | 0 <= i < |members|
      ensures LiesAt(c, members[i].key, vs[i].key, hi') && Stands(c, members[i].node, vs[i].value, hi')
    {
      LiesKept(b, c, members[i].key, vs[i].key, hi, hi');
      StandsKept(b, c, members[i].node, vs[i].value, hi, hi');
    }
  }

  /** What is left to read. */
  ghost function Rest(b: seq<Byte>, p: nat, n: nat): (r: seq<Byte>)
    requires p <= n <= |b|
  {
    b[p..n]
  }

  /** Nothing before `p` has been written, nor from `q` on. */
  ghost predicate Within(b0: seq<Byte>, b: seq<Byte>, p: nat, q: nat) {
    |b| == |b0| && p <= q <= |b| && b[..p] == b0[..p] && b[q..] == b0[q..]
  }

  /** What was found is what the text stood for, and only what was read has been written. */
  ghost predicate Agrees(b0: seq<Byte>, b: seq<Byte>, p: nat, n: nat, spec: Parsed, r: Found)
    requires p <= n <= |b0|
  {
    match spec
    case Rejected => r == Failed
    case Float => r == Floating
    case Parsed(v, rest) =>
      r.Found? && p <= r.next <= n && Rest(b0, r.next, n) == rest && Within(b0, b, p, r.next) && StandsFor(b, r.node, v, r.next)
  }

  /** A NUL-terminated text in a buffer. */
  ghost predicate IsText(b: seq<Byte>, p: nat, n: nat) {
    p <= n < |b| && b[n] == 0 && 0 !in b[p..n]
  }

  lemma RestStep(b: seq<Byte>, p: nat, n: nat, k: nat)
    requires p + k <= n <= |b|
    ensures Rest(b, p, n)[k..] == Rest(b, p + k, n)
    ensures forall i :: 0 <= i < n - p ==> Rest(b, p, n)[i] == b[p + i]
  {
  }

  lemma TextStep(b: seq<Byte>, p: nat, q: nat, n: nat)
    requires IsText(b, p, n) && p <= q <= n
    ensures IsText(b, q, n)
  {
    assert b[q..n] == b[p..n][q - p..];
  }

  lemma WithinRefl(b: seq<Byte>, p: nat)
    requires p <= |b|
    ensures Within(b, b, p, p)
  {
  }

  lemma WithinTrans(b0: seq<Byte>, b1: seq<Byte>, b2: seq<Byte>, p: nat, q: nat, r: nat)
    requires Within(b0, b1, p, q) && Within(b1, b2, q, r)
    ensures Within(b0, b2, p, r)
  {
    assert b2[..p] == b2[..q][..p] && b1[..p] == b1[..q][..p];
    assert b1[r..] == b1[q..][r - q..] && b0[r..] == b0[q..][r - q..];
  }

  /** What has not been read is as it was. */
  lemma WithinRest(b0: seq<Byte>, b: seq<Byte>, p: nat, q: nat, n: nat)
    requires Within(b0, b, p, q) && q <= n < |b| && IsText(b0, p, n)
    ensures Rest(b, q, n) == Rest(b0, q, n) && IsText(b, q, n)
  {
    assert b[q..n] == b[q..][..n - q] && b0[q..n] == b0[q..][..n - q];
    TextStep(b0, p, q, n);
    assert b[n] == b[q..][n - q] && b0[n] == b0[q..][n - q];
  }

  /** `strchr` for a line end: the place behind it. */
  method AfterLineAt(buf: array<Byte>, p: nat, n: nat) returns (r: Option<nat>)
    requires p <= n <= buf.Length
    ensures var spec := AfterLine(Rest(buf[..], p, n));
            if spec.None? then r == None else r.Some? && p <= r.value <= n && Rest(buf[..], r.value, n) == spec.value
  {
    var q := p;
    while q < n && buf[q] != LF
      invariant p <= q <= n && AfterLine(Rest(buf[..], p, n)) == AfterLine(Rest(buf[..], q, n))
    {
      RestStep(buf[..], q, n, 1);
      q := q + 1;
    }
    if q == n { return None; }
    RestStep(buf[..], q, n, 1);
    r := Some(q + 1);
  }

  /** `skip_block_comment` from the octet behind the first one of the comment's text. */
  method AfterBlockAt(buf: array<Byte>, p: nat, n: nat) returns (r: Option<nat>)
    requires 0 < p <= n <= buf.Length
    ensures var spec := AfterBlock(buf[p - 1], Rest(buf[..], p, n));
            if spec.None? then r == None else r.Some? && p <= r.value <= n && Rest(buf[..], r.value, n) == spec.value
  {
    var q := p;
    while q < n && !(buf[q] == SLASH && buf[q - 1] == STAR)
      invariant p <= q <= n && AfterBlock(buf[p - 1], Rest(buf[..], p, n)) == AfterBlock(buf[q - 1], Rest(buf[..], q, n))
    {
      RestStep(buf[..], q, n, 1);
      q := q + 1;
    }
    if q == n { return None; }
    RestStep(buf[..], q, n, 1);
    r := Some(q + 1);
  }

  method AfterCommentAt(buf: array<Byte>, p: nat, n: nat) returns (r: Option<nat>)
    requires p <= n <= buf.Length
    ensures var spec := AfterComment(Rest(buf[..], p, n));
            if spec.None? then r == None else r.Some? && p < r.value <= n && Rest(buf[..], r.value, n) == spec.value
  {
    hide AfterLine, AfterBlock;
    r := None;
    RestStep(buf[..], p, n, 0);
    if p < n && buf[p] == SLASH {
      RestStep(buf[..], p, n, 1);
      r := AfterLineAt(buf, p + 1, n);
    } else if p + 1 < n && buf[p] == STAR {
      RestStep(buf[..], p, n, 2);
      r := AfterBlockAt(buf, p + 2, n);
    }
  }

  // ---------------------------------------------------------------- strings and numbers

  /** A string behind its opening quote: it ends up where it started. */
  method StringAt(buf: array<Byte>, p: nat, n: nat) returns (ok: bool, next: nat)
    requires n < buf.Length && IsText(buf[..], p, n)
    modifies buf
    ensures buf[..p] == old(buf[..p]) && p <= next <= n
    ensures var spec := Unescape(Rest(old(buf[..]), p, n));
            ok == spec.Scanned? && (ok ==> LiesAt(buf[..], p, spec.text, next) && Rest(old(buf[..]), next, n) == spec.rest
                                           && Within(old(buf[..]), buf[..], p, next))
  {
    hide Unescape;
    ghost var b0 := buf[..];
    assert buf[p..n] == b0[p..n];
    var end;
    ok, end, next := UnescapeString(buf, p, n);
    if ok {
      assert buf[..][next..] == buf[next..] && buf[..][..p] == buf[..p] && buf[..][p..end] == buf[p..end];
    } else {
      next := p;
    }
  }

  /** The digits of `strtoll`, from the place where they start. */
  method RunAt(buf: array<Byte>, p: nat, n: nat, base: nat, acc: nat) returns (value: nat, q: nat)
    requires p <= n <= buf.Length
    ensures p <= q <= n && Run(acc, Rest(buf[..], p, n), base) == Digits(value, Rest(buf[..], q, n))
  {
    hide Run, Rest;
    value, q := acc, p;
    while q < n && InBase(buf[q], base)
      invariant p <= q <= n && Run(acc, Rest(buf[..], p, n), base) == Run(value, Rest(buf[..], q, n), base)
    {
      RunRound(value, buf[..], q, n, base);
      value, q := value * base + HexVal(buf[q]), q + 1;
    }
    RunRound(value, buf[..], q, n, base);
  }

  lemma RunRound(acc: nat, b: seq<Byte>, q: nat, n: nat, base: nat)
    requires q <= n <= |b|
    ensures Run(acc, Rest(b, q, n), base) ==
            if q < n && InBase(b[q], base) then Run(acc * base + HexVal(b[q]), Rest(b, q + 1, n), base)
            else Digits(acc, Rest(b, q, n))
  {
    if q < n { RestStep(b, q, n, 1); }
  }

  /** `strtoll` with base 0 behind the sign: the number, and the place behind it, which is `p` if there
      are no digits. */
  method MagnitudeAt(buf: array<Byte>, p: nat, n: nat) returns (value: nat, q: nat)
    requires p <= n <= buf.Length
    ensures p <= q <= n
    ensures Magnitude(Rest(buf[..], p, n)) == if q == p then None else Some(Digits(value, Rest(buf[..], q, n)))
  {
    hide Run;
    RestStep(buf[..], p, n, 0);
    value, q := 0, p;
    if p + 2 < n && buf[p] == 48 && (buf[p + 1] == 120 || buf[p + 1] == 88) && IsHex(buf[p + 2]) {
      RestStep(buf[..], p, n, 2);
      value, q := RunAt(buf, p + 2, n, 16, 0);
    } else if p < n && buf[p] == 48 {
      RestStep(buf[..], p, n, 1);
      value, q := RunAt(buf, p + 1, n, 8, 0);
    } else if p < n && IsDigit(buf[p]) {
      RestStep(buf[..], p, n, 1);
      value, q := RunAt(buf, p + 1, n, 10, HexVal(buf[p]));
    }
  }

  /** The number case of `parse_value`. */
  method NumberAt(buf: array<Byte>, p: nat, n: nat, er: bool) returns (r: Found)
    requires p <= n <= buf.Length
    ensures Agrees(buf[..], buf[..], p, n, ParseNumber(Rest(buf[..], p, n), er), r)
  {
    hide Magnitude;
    RestStep(buf[..], p, n, 0);
    var neg := p < n && buf[p] == MINUS;
    if neg { RestStep(buf[..], p, n, 1); }
    var start := if neg then p + 1 else p;
    var value, q := MagnitudeAt(buf, start, n);
    var x: int := value;
    if neg { x := -x; }
    if q == start || er || x < MIN64 || x > MAX64 { return Failed; }
    RestStep(buf[..], q, n, 0);
    if q < n && (buf[q] == 46 || buf[q] == 101 || buf[q] == 69) { return Floating; }
    r := Found(Some(IntNode(x)), q);
  }

  // ---------------------------------------------------------------- keys

  datatype KeyFound = NoKeyFound | KeyAt(at: nat, next: nat) | ClosedAt(next: nat)

  ghost predicate KeyAgrees(b0: seq<Byte>, b: seq<Byte>, p: nat, n: nat, spec: Key, r: KeyFound)
    requires p <= n <= |b0|
  {
    match spec
    case NoKey => r == NoKeyFound
    case Key(k, rest) =>
      r.KeyAt? && LiesAt(b, r.at, k, r.next) && p < r.next <= n && Rest(b0, r.next, n) == rest && Within(b0, b, p, r.next)
    case Closed(rest) =>
      r.ClosedAt? && p <= r.next < n && Rest(b0, r.next, n) == rest && Within(b0, b, p, r.next)
  }

  method SkipBlanksAt(buf: array<Byte>, p: nat, n: nat) returns (q: nat)
    requires p <= n <= buf.Length
    ensures p <= q <= n && Rest(buf[..], q, n) == SkipBlanks(Rest(buf[..], p, n))
  {
    q := p;
    while q < n && buf[q] <= 32
      invariant p <= q <= n && SkipBlanks(Rest(buf[..], p, n)) == SkipBlanks(Rest(buf[..], q, n))
    {
      RestStep(buf[..], q, n, 1);
      q := q + 1;
    }
    RestStep(buf[..], q, n, 0);
  }

  /** A key behind its opening quote. */
  method QuotedKeyAt(buf: array<Byte>, p: nat, n: nat) returns (r: KeyFound)
    requires p < n < buf.Length && IsText(buf[..], p, n) && buf[p] == QUOTE
    modifies buf
    ensures buf[..p] == old(buf[..p])
    ensures KeyAgrees(old(buf[..]), buf[..], p, n, ParseKey(Rest(old(buf[..]), p, n)), r)
  {
    hide ParseKey, Unescape, SkipBlanks, Within, IsText, LiesAt;
    ghost var b0 := buf[..];
    RestStep(b0, p, n, 1);
    QuotedKey(Rest(b0, p, n));
    TextStep(b0, p, p + 1, n);
    var ok, q := StringAt(buf, p + 1, n);
    assert buf[..p] == buf[..p + 1][..p] && b0[..p] == b0[..p + 1][..p];
    if !ok { return NoKeyFound; }
    WithinRest(b0, buf[..], p + 1, q, n);
    var t := SkipBlanksAt(buf, q, n);
    RestStep(buf[..], t, n, 0);
    r := NoKeyFound;
    if t < n && buf[t] == COLON {
      Widen(b0, buf[..], p + 1, q, p, t + 1);
      SameRest(b0, buf[..], p, t + 1, n);
      RestStep(buf[..], t, n, 1);
      LiesKept(buf[..], buf[..], p + 1, Unescape(Rest(b0, p + 1, n)).text, q, t + 1);
      r := KeyAt(p + 1, t + 1);
    }
  }

  lemma Widen(b0: seq<Byte>, b: seq<Byte>, p: nat, q: nat, p': nat, q': nat)
    requires Within(b0, b, p, q) && p' <= p && q <= q' <= |b|
    ensures Within(b0, b, p', q')
  {
    assert b[..p'] == b[..p][..p'] && b0[..p'] == b0[..p][..p'];
    assert b[q'..] == b[q..][q' - q..] && b0[q'..] == b0[q..][q' - q..];
  }

  lemma SameRest(b0: seq<Byte>, b: seq<Byte>, p: nat, q: nat, n: nat)
    requires Within(b0, b, p, q) && q <= n <= |b|
    ensures |b0| == |b| && Rest(b, q, n) == Rest(b0, q, n)
  {
    assert b[q..n] == b[q..][..n - q] && b0[q..n] == b0[q..][..n - q];
  }

  lemma QuotedKey(s: seq<Byte>)
    requires s != [] && s[0] == QUOTE
    ensures ParseKey(s) ==
            var k := Unescape(s[1..]);
            if k.Endless? then NoKey
            else
              var t := SkipBlanks(k.rest);
              if t != [] && t[0] == COLON then Key(k.text, t[1..]) else NoKey
  {
  }

  /** `parse_key` */
  method ParseKeyAt(buf: array<Byte>, p0: nat, n: nat) returns (r: KeyFound)
    requires p0 <= n < buf.Length && IsText(buf[..], p0, n)
    modifies buf
    ensures buf[..p0] == old(buf[..p0])
    ensures KeyAgrees(old(buf[..]), buf[..], p0, n, ParseKey(Rest(old(buf[..]), p0, n)), r)
  {
    hide ParseKey, Within, IsText, AfterComment;
    var p := p0;
    ghost var b0 := buf[..];
    while p < n
      invariant p0 <= p <= n && buf[..] == b0 && ParseKey(Rest(b0, p0, n)) == ParseKey(Rest(b0, p, n))
      decreases n - p
    {
      RestStep(b0, p, n, 1);
      KeyRound(Rest(b0, p, n));
      var c := buf[p];
      if c == QUOTE {
        TextStep(b0, p0, p, n);
        r := QuotedKeyAt(buf, p, n);
        KeyWiden(b0, buf[..], p0, p, n, ParseKey(Rest(b0, p, n)), r);
        assert buf[..p0] == buf[..p][..p0] && old(buf[..p0]) == old(buf[..p])[..p0];
        return;
      } else if c <= 32 || c == COMMA {
        p := p + 1;
      } else if c == RBRACE {
        WithinRefl(b0, p);
        Widen(b0, buf[..], p, p, p0, p);
        return ClosedAt(p);
      } else if c == SLASH {
        var q := AfterCommentAt(buf, p + 1, n);
        if q.None? { return NoKeyFound; }
        p := q.value;
      } else {
        return NoKeyFound;
      }
    }
    KeyRound(Rest(b0, p, n));
    r := NoKeyFound;
  }

  lemma KeyWiden(b0: seq<Byte>, b: seq<Byte>, p0: nat, p: nat, n: nat, spec: Key, r: KeyFound)
    requires p0 <= p <= n < |b0| && KeyAgrees(b0, b, p, n, spec, r)
    ensures KeyAgrees(b0, b, p0, n, spec, r)
  {
    match spec {
      case NoKey =>
      case Key(_, _) => Widen(b0, b, p, r.next, p0, r.next);
      case Closed(_) => Widen(b0, b, p, r.next, p0, r.next);
    }
  }

  lemma KeyRound(s: seq<Byte>)
    ensures s == [] ==> ParseKey(s) == NoKey
    ensures s != [] && s[0] != QUOTE ==>
              ParseKey(s) == if s[0] <= 32 || s[0] == COMMA then ParseKey(s[1..])
                             else if s[0] == RBRACE then Closed(s)
                             else if s[0] == SLASH then
                               var t := AfterComment(s[1..]);
                               if t.None? then NoKey else ParseKey(t.value)
                             else NoKey
  {
    hide AfterComment;
  }

  // ---------------------------------------------------------------- values

  lemma AgreesWiden(b0: seq<Byte>, b: seq<Byte>, p0: nat, p: nat, n: nat, spec: Parsed, r: Found)
    requires p0 <= p <= n < |b0| && Agrees(b0, b, p, n, spec, r)
    ensures Agrees(b0, b, p0, n, spec, r)
  {
    if spec.Parsed? { Widen(b0, b, p, r.next, p0, r.next); }
  }

  lemma ValueRound(s: seq<Byte>, er: bool)
    ensures s == [] ==> ParseValue(s, er) == Rejected
    ensures s != [] ==>
      ParseValue(s, er) ==
      if IsSpace(s[0]) || s[0] == COMMA then ParseValue(s[1..], er)
      else if s[0] == LBRACE then ParseMembers(s[1..], er, [])
      else if s[0] == LBRACKET then ParseItems(s[1..], er, [])
      else if s[0] == RBRACKET then Parsed(None, s)
      else if s[0] == QUOTE then
        var t := Unescape(s[1..]);
        if t.Endless? then Rejected else Parsed(Some(Str(t.text)), t.rest)
      else if s[0] == MINUS || IsDigit(s[0]) then ParseNumber(s, er)
      else if TRUE <= s then Parsed(Some(Bool(true)), s[4..])
      else if FALSE <= s then Parsed(Some(Bool(false)), s[5..])
      else if NULL <= s then Parsed(Some(Null), s[4..])
      else if s[0] == SLASH then
        var t := AfterComment(s[1..]);
        if t.None? then Rejected else ParseValue(t.value, er)
      else Rejected
  {
    hide AfterComment, Unescape, ParseNumber, ParseMembers, ParseItems;
  }

  predicate IsSkipped(c: Byte) {
    IsSpace(c) || c == COMMA || c == SLASH
  }

  /** White space, commas and comments before a value; nothing for a comment that does not end. */
  method SkipAt(buf: array<Byte>, p: nat, n: nat, er: bool) returns (q: Option<nat>)
    requires p <= n <= buf.Length
    ensures q.None? ==> ParseValue(Rest(buf[..], p, n), er) == Rejected
    ensures q.Some? ==> p <= q.value <= n && (q.value < n ==> !IsSkipped(buf[q.value]))
                        && ParseValue(Rest(buf[..], p, n), er) == ParseValue(Rest(buf[..], q.value, n), er)
  {
    hide ParseValue, AfterComment;
    var k := p;
    while k < n && IsSkipped(buf[k])
      invariant p <= k <= n && ParseValue(Rest(buf[..], p, n), er) == ParseValue(Rest(buf[..], k, n), er)
      decreases n - k
    {
      RestStep(buf[..], k, n, 1);
      ValueRound(Rest(buf[..], k, n), er);
      if buf[k] == SLASH {
        var t := AfterCommentAt(buf, k + 1, n);
        if t.None? { return None; }
        k := t.value;
      } else {
        k := k + 1;
      }
    }
    q := Some(k);
  }

  /** `parse_value` */
  method ParseValueAt(buf: array<Byte>, p0: nat, n: nat, er: bool) returns (r: Found)
    requires p0 <= n < buf.Length && IsText(buf[..], p0, n)
    modifies buf
    ensures buf[..p0] == old(buf[..p0])
    ensures Agrees(old(buf[..]), buf[..], p0, n, ParseValue(Rest(old(buf[..]), p0, n), er), r)
    decreases n - p0, 2
  {
    hide ParseValue, Within, IsText, Agrees;
    ghost var b0 := buf[..];
    var q := SkipAt(buf, p0, n, er);
    if q.None? {
      AgreesNothing(b0, buf[..], p0, n);
      return Failed;
    }
    var p := q.value;
    TextStep(b0, p0, p, n);
    r := ValueAt(buf, p, n, er);
    AgreesWiden(b0, buf[..], p0, p, n, ParseValue(Rest(b0, p, n), er), r);
    assert buf[..p0] == buf[..p][..p0] && b0[..p0] == b0[..p][..p0];
  }

  lemma AgreesHere(b: seq<Byte>, p: nat, n: nat, v: Option<Json>, node: Option<Node>, k: nat)
    requires p + k <= n <= |b| && StandsFor(b, node, v, p + k)
    ensures Agrees(b, b, p, n, Parsed(v, Rest(b, p, n)[k..]), Found(node, p + k))
  {
    RestStep(b, p, n, k);
  }

  /** The switch of `parse_value`, at something that is not skipped. */
  method ValueAt(buf: array<Byte>, p: nat, n: nat, er: bool) returns (r: Found)
    requires p <= n < buf.Length && IsText(buf[..], p, n) && (p < n ==> !IsSkipped(buf[p]))
    modifies buf
    ensures buf[..p] == old(buf[..p])
    ensures Agrees(old(buf[..]), buf[..], p, n, ParseValue(Rest(old(buf[..]), p, n), er), r)
    decreases n - p, 1
  {
    hide ParseValue, ParseItems, ParseMembers, ParseNumber, Unescape, Within, IsText, Agrees;
    ghost var b0 := buf[..];
    ghost var s := Rest(b0, p, n);
    ValueRound(s, er);
    if p == n {
      AgreesNothing(b0, b0, p, n);
      return Failed;
    }
    RestStep(b0, p, n, 1);
    var c := buf[p];
    if c == LBRACE || c == LBRACKET || c == QUOTE {
      TextStep(b0, p, p + 1, n);
      r := OpenedAt(buf, p, n, er);
    } else if c == RBRACKET {
      AgreesHere(b0, p, n, None, None, 0);
      r := Found(None, p);
    } else if c == MINUS || IsDigit(c) {
      r := NumberAt(buf, p, n, er);
    } else {
      r := WordAt(buf, p, n, er);
    }
  }

  /** `true`, `false`, `null`, or nothing that starts a value. */
  method WordAt(buf: array<Byte>, p: nat, n: nat, er: bool) returns (r: Found)
    requires p < n <= buf.Length && !IsSkipped(buf[p])
    requires buf[p] !in {LBRACE, LBRACKET, QUOTE, RBRACKET, MINUS} && !IsDigit(buf[p])
    ensures Agrees(buf[..], buf[..], p, n, ParseValue(Rest(buf[..], p, n), er), r)
  {
    hide ParseValue, Agrees;
    var s := buf[p..n];
    assert s == Rest(buf[..], p, n) && s[0] == buf[p];
    ValueRound(s, er);
    if TRUE <= s {
      AgreesHere(buf[..], p, n, Some(Bool(true)), Some(BoolNode(true)), 4);
      r := Found(Some(BoolNode(true)), p + 4);
    } else if FALSE <= s {
      AgreesHere(buf[..], p, n, Some(Bool(false)), Some(BoolNode(false)), 5);
      r := Found(Some(BoolNode(false)), p + 5);
    } else if NULL <= s {
      AgreesHere(buf[..], p, n, Some(Null), Some(NullNode), 4);
      r := Found(Some(NullNode), p + 4);
    } else {
      AgreesNothing(buf[..], buf[..], p, n);
      r := Failed;
    }
  }

  /** An object, an array or a string. */
  method OpenedAt(buf: array<Byte>, p: nat, n: nat, er: bool) returns (r: Found)
    requires p < n < buf.Length && IsText(buf[..], p + 1, n) && buf[p] in {LBRACE, LBRACKET, QUOTE}
    modifies buf
    ensures buf[..p] == old(buf[..p])
    ensures Agrees(old(buf[..]), buf[..], p, n, ParseValue(Rest(old(buf[..]), p, n), er), r)
    decreases n - p, 0
  {
    hide ParseValue, ParseItems, ParseMembers, Unescape, Within, IsText, Agrees;
    ghost var b0 := buf[..];
    ghost var s := Rest(b0, p, n);
    RestStep(b0, p, n, 1);
    ValueRound(s, er);
    if buf[p] == LBRACE {
      r := ParseMembersAt(buf, p + 1, n, er);
      AgreesWiden(b0, buf[..], p, p + 1, n, ParseMembers(Rest(b0, p + 1, n), er, []), r);
    } else if buf[p] == LBRACKET {
      r := ParseItemsAt(buf, p + 1, n, er);
      AgreesWiden(b0, buf[..], p, p + 1, n, ParseItems(Rest(b0, p + 1, n), er, []), r);
    } else {
      var ok, next := StringAt(buf, p + 1, n);
      r := if ok then Found(Some(StrNode(p + 1)), next) else Failed;
      StringAgrees(b0, buf[..], p, n, Unescape(Rest(b0, p + 1, n)), ok, next);
    }
    assert buf[..p] == buf[..p + 1][..p] && b0[..p] == b0[..p + 1][..p];
  }

  lemma StringAgrees(b0: seq<Byte>, b: seq<Byte>, p: nat, n: nat, u: Scanned, ok: bool, next: nat)
    requires p < n < |b0| && ok == u.Scanned?
    requires ok ==> p < next <= n && Within(b0, b, p + 1, next) && LiesAt(b, p + 1, u.text, next)
    ensures !ok ==> Agrees(b0, b, p, n, Rejected, Failed)
    ensures ok ==> Agrees(b0, b, p, n, Parsed(Some(Str(u.text)), Rest(b0, next, n)), Found(Some(StrNode(p + 1)), next))
  {
    if ok { Widen(b0, b, p + 1, next, p, next); }
  }

  // ---------------------------------------------------------------- children

  lemma ItemsRound(s: seq<Byte>, er: bool, items: seq<Json>)
    ensures ParseItems(s, er, items) ==
            var v := ParseValue(s, er);
            if !v.Parsed? then v
            else
              var more := if v.value.None? then items else items + [v.value.value];
              if v.rest != [] && v.rest[0] == RBRACKET then Parsed(Some(Arr(more)), v.rest[1..])
              else ParseItems(v.rest, er, more)
  {
    hide ParseValue;
  }

  /** What a value read at `p` means for where the parser started. */
  lemma Advance(b0: seq<Byte>, b1: seq<Byte>, b2: seq<Byte>, p0: nat, p: nat, n: nat, v: Parsed, r: Found)
    requires IsText(b0, p0, n) && Within(b0, b1, p0, p) && p <= n && Agrees(b1, b2, p, n, v, r)
    ensures v.Rejected? <==> r.Failed?
    ensures v.Float? <==> r.Floating?
    ensures v.Parsed? ==> r.Found? && p <= r.next <= n && v.rest == Rest(b0, r.next, n) && Within(b0, b2, p0, r.next)
    ensures v.Parsed? ==> |b2| == |b1| && p <= |b1| && b2[..p] == b1[..p] && StandsFor(b2, r.node, v.value, r.next)
    ensures v.Parsed? && r.next < n ==> |b2| == |b0| && b2[r.next] == b0[r.next] && Within(b0, b2, p0, r.next + 1)
    ensures v.Parsed? && r.next < n ==> v.rest != [] && v.rest[0] == b0[r.next] && v.rest[1..] == Rest(b0, r.next + 1, n)
  {
    if v.Parsed? {
      WithinTrans(b0, b1, b2, p0, p, r.next);
      SameRest(b0, b1, p0, p, n);
      Widen(b0, b1, p0, p, p0, r.next);
      SameRest(b0, b1, p0, r.next, n);
      if r.next < n {
        Widen(b0, b2, p0, r.next, p0, r.next + 1);
        assert b2[r.next] == b2[r.next..][0] && b0[r.next] == b0[r.next..][0];
        RestStep(b0, r.next, n, 1);
      }
    }
  }

  lemma AgreesItems(b0: seq<Byte>, b: seq<Byte>, p: nat, n: nat, items: seq<Node>, vs: seq<Json>, hi: nat, next: nat)
    requires p <= hi <= next <= n <= |b0| && Within(b0, b, p, next) && ItemsStand(b, items, vs, hi)
    ensures Agrees(b0, b, p, n, Parsed(Some(Arr(vs)), Rest(b0, next, n)), Found(Some(ArrNode(items)), next))
  {
    ItemsKept(b, b, items, vs, hi, next);
  }

  lemma AgreesMembers(b0: seq<Byte>, b: seq<Byte>, p: nat, n: nat, members: seq<Child>, vs: seq<Member>, hi: nat, next: nat)
    requires p <= hi <= next <= n <= |b0| && Within(b0, b, p, next) && MembersStand(b, members, vs, hi)
    ensures Agrees(b0, b, p, n, Parsed(Some(Obj(vs)), Rest(b0, next, n)), Found(Some(ObjNode(members)), next))
  {
    MembersKept(b, b, members, vs, hi, next);
  }

  lemma AgreesNothing(b0: seq<Byte>, b: seq<Byte>, p: nat, n: nat)
    requires p <= n <= |b0|
    ensures Agrees(b0, b, p, n, Rejected, Failed) && Agrees(b0, b, p, n, Float, Floating)
  {
  }

  /** The children loop of an array. */
  method ParseItemsAt(buf: array<Byte>, p0: nat, n: nat, er: bool) returns (r: Found)
    requires p0 <= n < buf.Length && IsText(buf[..], p0, n)
    modifies buf
    ensures buf[..p0] == old(buf[..p0])
    ensures Agrees(old(buf[..]), buf[..], p0, n, ParseItems(Rest(old(buf[..]), p0, n), er, []), r)
    decreases n - p0, 3
  {
    hide ParseValue, ParseItems, Within, IsText, Agrees, StandsFor, ItemsStand;
    ghost var b0 := buf[..];
    AgreesNothing(b0, b0, p0, n);
    var p, items := p0, [];
    ghost var vs := [];
    WithinRefl(b0, p0);
    NoItems(b0, p0);
    while true
      invariant p0 <= p <= n && Within(b0, buf[..], p0, p) && buf[..p0] == old(buf[..p0])
      invariant ItemsStand(buf[..], items, vs, p)
      invariant ParseItems(Rest(b0, p0, n), er, []) == ParseItems(Rest(b0, p, n), er, vs)
      decreases n - p
    {
      ghost var b1, spec := buf[..], ParseValue(Rest(b0, p, n), er);
      WithinRest(b0, b1, p0, p, n);
      ItemsRound(Rest(b0, p, n), er, vs);
      var v := ParseValueAt(buf, p, n, er);
      assert buf[..p0] == buf[..p][..p0] && b1[..p0] == b1[..p][..p0];
      Advance(b0, b1, buf[..], p0, p, n, spec, v);
      if !v.Found? {
        AgreesNothing(b0, buf[..], p0, n);
        return v;
      }
      ItemsGrow(b1, buf[..], items, vs, p, v.next, v.node, spec.value);
      vs := if spec.value.None? then vs else vs + [spec.value.value];
      if v.node.Some? { items := items + [v.node.value]; }
      if v.next < n && buf[v.next] == RBRACKET {
        AgreesItems(b0, buf[..], p0, n, items, vs, v.next, v.next + 1);
        return Found(Some(ArrNode(items)), v.next + 1);
      }
      Progressed(b0, p, v.next, n, er);
      p := v.next;
    }
  }

  lemma NoItems(b: seq<Byte>, p: nat)
    ensures ItemsStand(b, [], [], p) && MembersStand(b, [], [], p)
  {
  }

  lemma ItemsGrow(b: seq<Byte>, c: seq<Byte>, items: seq<Node>, vs: seq<Json>, p: nat, q: nat, node: Option<Node>, v: Option<Json>)
    requires ItemsStand(b, items, vs, p) && p <= q <= |c| == |b| && c[..p] == b[..p] && StandsFor(c, node, v, q)
    ensures node.None? <==> v.None?
    ensures if node.None? then ItemsStand(c, items, vs, q) else ItemsStand(c, items + [node.value], vs + [v.value], q)
  {
    hide Stands;
    ItemsKept(b, c, items, vs, p, q);
  }

  lemma MembersGrow(b: seq<Byte>, c: seq<Byte>, members: seq<Child>, vs: seq<Member>, p: nat, q: nat,
                    at: nat, key: seq<Byte>, node: Option<Node>, v: Option<Json>)
    requires MembersStand(b, members, vs, p) && LiesAt(b, at, key, p) && p <= q <= |c| == |b| && c[..p] == b[..p]
    requires StandsFor(c, node, v, q)
    ensures node.None? <==> v.None?
    ensures if node.None? then MembersStand(c, members, vs, q)
            else MembersStand(c, members + [Child(at, node.value)], vs + [Member(key, v.value)], q)
  {
    hide Stands, LiesAt;
    MembersKept(b, c, members, vs, p, q);
    LiesKept(b, c, at, key, p, q);
  }

  /** The parser moves on unless it is at a closing bracket. */
  lemma Progressed(b: seq<Byte>, p: nat, q: nat, n: nat, er: bool)
    requires p <= q <= n <= |b| && ParseValue(Rest(b, p, n), er).Parsed? && ParseValue(Rest(b, p, n), er).rest == Rest(b, q, n)
    ensures p < q || (q < n && b[q] == RBRACKET)
  {
    hide ParseValue;
    RestStep(b, q, n, 0);
  }

  lemma MembersRound(s: seq<Byte>, er: bool, members: seq<Member>)
    ensures ParseMembers(s, er, members) ==
            var k := ParseKey(s);
            if k.NoKey? then Rejected
            else if k.rest != [] && k.rest[0] == RBRACE then Parsed(Some(Obj(members)), k.rest[1..])
            else
              var v := ParseValue(k.rest, er);
              if !v.Parsed? then v
              else if v.value.None? then ParseMembers(v.rest, er, members)
              else ParseMembers(v.rest, er, members + [Member(k.key, v.value.value)])
  {
    hide ParseKey, ParseValue;
  }

  lemma KeyAdvance(b0: seq<Byte>, b1: seq<Byte>, b2: seq<Byte>, p0: nat, p: nat, n: nat, k: Key, r: KeyFound)
    requires IsText(b0, p0, n) && Within(b0, b1, p0, p) && p <= n && KeyAgrees(b1, b2, p, n, k, r)
    ensures k.NoKey? <==> r.NoKeyFound?
    ensures k.Key? ==> r.KeyAt? && p < r.next <= n && k.rest == Rest(b0, r.next, n) && Within(b0, b2, p0, r.next)
    ensures k.Key? ==> |b2| == |b1| && p <= |b1| && b2[..p] == b1[..p] && LiesAt(b2, r.at, k.key, r.next)
    ensures k.Closed? ==> |b2| == |b1| && p <= |b1| && b2[..p] == b1[..p]
    ensures k.Closed? ==> r.ClosedAt? && k == Closed(Rest(b0, r.next, n)) && p <= r.next < n && Within(b0, b2, p0, r.next)
    ensures !k.NoKey? && r.next < n ==> |b2| == |b0| && b2[r.next] == b0[r.next] && Within(b0, b2, p0, r.next + 1)
    ensures !k.NoKey? && r.next < n ==> k.rest != [] && k.rest[0] == b0[r.next] && k.rest[1..] == Rest(b0, r.next + 1, n)
  {
    if !k.NoKey? {
      WithinTrans(b0, b1, b2, p0, p, r.next);
      Widen(b0, b1, p0, p, p0, r.next);
      SameRest(b0, b1, p0, r.next, n);
      if r.next < n {
        Widen(b0, b2, p0, r.next, p0, r.next + 1);
        assert b2[r.next] == b2[r.next..][0] && b0[r.next] == b0[r.next..][0];
        RestStep(b0, r.next, n, 1);
      }
    }
  }

  /** The children loop of an object. */
  method ParseMembersAt(buf: array<Byte>, p0: nat, n: nat, er: bool) returns (r: Found)
    requires p0 <= n < buf.Length && IsText(buf[..], p0, n)
    modifies buf
    ensures buf[..p0] == old(buf[..p0])
    ensures Agrees(old(buf[..]), buf[..], p0, n, ParseMembers(Rest(old(buf[..]), p0, n), er, []), r)
    decreases n - p0, 3
  {
    hide ParseValue, ParseKey, ParseMembers, Within, IsText, Agrees, KeyAgrees, StandsFor, LiesAt, MembersStand;
    ghost var b0 := buf[..];
    AgreesNothing(b0, b0, p0, n);
    var p, members := p0, [];
    ghost var vs := [];
    WithinRefl(b0, p0);
    NoItems(b0, p0);
    while true
      invariant p0 <= p <= n && Within(b0, buf[..], p0, p) && buf[..p0] == old(buf[..p0])
      invariant MembersStand(buf[..], members, vs, p)
      invariant ParseMembers(Rest(b0, p0, n), er, []) == ParseMembers(Rest(b0, p, n), er, vs)
      decreases n - p
    {
      ghost var b1, spec := buf[..], ParseKey(Rest(b0, p, n));
      WithinRest(b0, b1, p0, p, n);
      MembersRound(Rest(b0, p, n), er, vs);
      var k := ParseKeyAt(buf, p, n);
      assert buf[..p0] == buf[..p][..p0] && b1[..p0] == b1[..p][..p0];
      KeyAdvance(b0, b1, buf[..], p0, p, n, spec, k);
      if k.NoKeyFound? {
        AgreesNothing(b0, buf[..], p0, n);
        return Failed;
      }
      MembersKept(b1, buf[..], members, vs, p, k.next);
      if k.next < n && buf[k.next] == RBRACE {
        AgreesMembers(b0, buf[..], p0, n, members, vs, k.next, k.next + 1);
        return Found(Some(ObjNode(members)), k.next + 1);
      }
      assert k.KeyAt?;
      ghost var b2, value := buf[..], ParseValue(Rest(b0, k.next, n), er);
      var v := MemberAt(buf, b0, p0, k.next, n, er);
      if !v.Found? {
        AgreesNothing(b0, buf[..], p0, n);
        return v;
      }
      MembersGrow(b2, buf[..], members, vs, k.next, v.next, k.at, spec.key, v.node, value.value);
      vs := if value.value.None? then vs else vs + [Member(spec.key, value.value.value)];
      if v.node.Some? { members := members + [Child(k.at, v.node.value)]; }
      p := v.next;
    }
  }

  /** The value behind a key. */
  method MemberAt(buf: array<Byte>, ghost b0: seq<Byte>, p0: nat, p: nat, n: nat, er: bool) returns (v: Found)
    requires p0 < p <= n < buf.Length == |b0| && IsText(b0, p0, n) && Within(b0, buf[..], p0, p)
    modifies buf
    ensures buf[..p0] == old(buf[..p0])
    ensures var spec := ParseValue(Rest(b0, p, n), er);
            && (spec.Rejected? <==> v.Failed?) && (spec.Float? <==> v.Floating?)
            && (spec.Parsed? ==> v.Found? && p <= v.next <= n && spec.rest == Rest(b0, v.next, n)
                                 && Within(b0, buf[..], p0, v.next)
                                 && buf[..p] == old(buf[..p]) && StandsFor(buf[..], v.node, spec.value, v.next))
    decreases n - p, 3
  {
    hide ParseValue, Within, IsText, Agrees, StandsFor;
    ghost var b1 := buf[..];
    WithinRest(b0, b1, p0, p, n);
    v := ParseValueAt(buf, p, n, er);
    assert buf[..p0] == buf[..p][..p0] && b1[..p0] == b1[..p][..p0];
    Advance(b0, b1, buf[..], p0, p, n, ParseValue(Rest(b0, p, n), er), v);
  }

  /** `nx_json_parse`: the tree is the one the text stood for when it was handed over, and at the end
      every string and key of it lies NUL-terminated in the buffer where its node points. */
  method Parse(buf: array<Byte>, n: nat, er: bool) returns (r: Found)
    requires n < buf.Length && IsText(buf[..], 0, n)
    modifies buf
    ensures r.Floating? <==> ParseValue(old(buf[..n]), er).Float?
    ensures r.Failed? <==> ParseValue(old(buf[..n]), er).Rejected?
    ensures r.Found? ==> StandsFor(buf[..], r.node, ParseText(old(buf[..n]), er), r.next) && r.next <= n
    ensures r.Found? ==> buf[r.next..] == old(buf[r.next..])
  {
    hide ParseValue, Stands;
    ghost var b0 := buf[..];
    r := ParseValueAt(buf, 0, n, er);
    assert Rest(b0, 0, n) == b0[..n] == old(buf[..n]);
    assert r.Found? ==> buf[..][r.next..] == buf[r.next..] && b0[r.next..] == old(buf[r.next..]);
  }
}
