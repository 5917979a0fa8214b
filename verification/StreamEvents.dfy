/** Connected streams and their readiness: a pair that is ready on both sides has its event in the
    loop's queue. */
module StreamEvents {
  import opened Octets
  import opened Sequences

  /** An input stream: its ready flag, its partner, and the output stream its event names. */
  datatype IStream = IStream(ready: bool, pair: Option<nat>, receiver: nat)

  datatype OStream = OStream(ready: bool, pair: Option<nat>)

  /** All streams, and the queued stream events by their input streams. */
  datatype Net = Net(ins: map<nat, IStream>, outs: map<nat, OStream>, queue: seq<nat>)

  predicate BothReady(n: Net, i: nat, o: nat) {
    i in n.ins && o in n.outs && n.ins[i].pair == Some(o) && n.ins[i].ready && n.outs[o].ready
  }

  /** Partners know each other. */
  ghost predicate Paired(n: Net) {
    && (forall i :: i in n.ins && n.ins[i].pair.Some? ==>
          n.ins[i].pair.value in n.outs && n.outs[n.ins[i].pair.value].pair == Some(i))
    && (forall o :: o in n.outs && n.outs[o].pair.Some? ==>
          n.outs[o].pair.value in n.ins && n.ins[n.outs[o].pair.value].pair == Some(o))
  }

  /** A queued event names the current partner of its stream. */
  ghost predicate NamesPartner(n: Net) {
    && NoDuplicates(n.queue)
    && forall i :: i in n.queue ==> i in n.ins && n.ins[i].pair == Some(n.ins[i].receiver)
  }

  /** A pair ready on both sides is queued, or it is the one being delivered and its event still names
      the partner. */
  ghost predicate Known(n: Net, i: nat, o: nat, delivering: Option<(nat, nat)>) {
    BothReady(n, i, o) ==> i in n.queue || (delivering == Some((i, o)) && n.ins[i].receiver == o)
  }

  /** No readiness is lost. */
  ghost predicate NoneLost(n: Net, delivering: Option<(nat, nat)>) {
    forall i, o :: Known(n, i, o, delivering)
  }

  ghost predicate Inv(n: Net, delivering: Option<(nat, nat)>) {
    Paired(n) && NamesPartner(n) && NoneLost(n, delivering)
  }

  // ---------------------------------------------------------------- the stream API

  datatype Op =
    | SetIn(i: nat) | UnsetIn(i: nat)
    | SetOut(o: nat) | UnsetOut(o: nat)
    | Connect(i: nat, o: nat) | Disconnect(i: nat, o: nat)

  /** What a caller owes: the streams exist, only unconnected ones are connected, only partners are
      disconnected. */
  predicate Allowed(n: Net, op: Op) {
    match op
    case SetIn(i) => i in n.ins
    case UnsetIn(i) => i in n.ins
    case SetOut(o) => o in n.outs
    case UnsetOut(o) => o in n.outs
    case Connect(i, o) => i in n.ins && o in n.outs && n.ins[i].pair == None && n.outs[o].pair == None
    case Disconnect(i, o) => i in n.ins && o in n.outs && n.ins[i].pair == Some(o) && n.outs[o].pair == Some(i)
  }

  /** Queues the event of `i` for `o`, unless it is queued. */
  function Emit(n: Net, i: nat, o: nat): (r: Net)
    requires i in n.ins
  {
    if i in n.queue then n
    else n.(ins := n.ins[i := n.ins[i].(receiver := o)], queue := n.queue + [i])
  }

  function SetInReady(n: Net, i: nat): (r: Net)
    requires i in n.ins
  {
    if n.ins[i].ready then n
    else
      var m := n.(ins := n.ins[i := n.ins[i].(ready := true)]);
      var p := m.ins[i].pair;
      if p.Some? && p.value in m.outs && m.outs[p.value].ready then Emit(m, i, p.value) else m
  }

  function SetOutReady(n: Net, o: nat): (r: Net)
    requires o in n.outs
  {
    var m := n.(outs := n.outs[o := n.outs[o].(ready := true)]);
    var p := m.outs[o].pair;
    if p.Some? && p.value in m.ins && m.ins[p.value].ready then Emit(m, p.value, o) else m
  }

  function Unlinked(q: seq<nat>, i: nat): (r: seq<nat>) {
    if q == [] then [] else if q[0] == i then q[1..] else [q[0]] + Unlinked(q[1..], i)
  }

  function Apply(n: Net, op: Op): (r: Net)
    requires Allowed(n, op)
  {
    match op
    case SetIn(i) => SetInReady(n, i)
    case UnsetIn(i) => n.(ins := n.ins[i := n.ins[i].(ready := false)])
    case SetOut(o) => SetOutReady(n, o)
    case UnsetOut(o) => n.(outs := n.outs[o := n.outs[o].(ready := false)])
    case Connect(i, o) =>
      var m := n.(ins := n.ins[i := n.ins[i].(pair := Some(o))], outs := n.outs[o := n.outs[o].(pair := Some(i))]);
      if m.ins[i].ready && m.outs[o].ready
      then m.(ins := m.ins[i := m.ins[i].(receiver := o)], queue := m.queue + [i])
      else m
    case Disconnect(i, o) =>
      Net(n.ins[i := n.ins[i].(pair := None)], n.outs[o := n.outs[o].(pair := None)], Unlinked(n.queue, i))
  }

  lemma {:induction false} UnlinkedMembers(q: seq<nat>, i: nat)
    requires NoDuplicates(q)
    ensures NoDuplicates(Unlinked(q, i)) && forall x :: x in Unlinked(q, i) <==> x in q && x != i
    decreases |q|
  {
    if q != [] {
      assert q == [q[0]] + q[1..];
      UnlinkedMembers(q[1..], i);
      if q[0] == i {
        assert forall k :: 0 <= k < |q| - 1 ==> q[1..][k] != q[0];
      } else {
        var w := Unlinked(q[1..], i);
        forall k | 0 <= k < |w| ensures w[k] != q[0] { assert w[k] in w; }
      }
    }
  }

  /** All pairs ready on both sides are accounted for, but perhaps that of `i`. */
  ghost predicate NoneLostBut(n: Net, i: nat, d: Option<(nat, nat)>) {
    forall j, o :: j != i ==> Known(n, j, o, d)
  }

  lemma EmitKeeps(n: Net, i: nat, o: nat, d: Option<(nat, nat)>)
    requires Paired(n) && NamesPartner(n) && NoneLostBut(n, i, d) && i in n.ins && n.ins[i].pair == Some(o)
    ensures Inv(Emit(n, i, o), d)
  {
    var m := Emit(n, i, o);
    forall j: nat, p: nat ensures Known(m, j, p, d) {
      if j != i { assert Known(n, j, p, d); }
    }
  }

  lemma SetInKeeps(n: Net, i: nat, d: Option<(nat, nat)>)
    requires Inv(n, d) && i in n.ins
    ensures Inv(SetInReady(n, i), d)
  {
    if !n.ins[i].ready {
      var m := n.(ins := n.ins[i := n.ins[i].(ready := true)]);
      forall j: nat, p: nat | j != i ensures Known(m, j, p, d) { assert Known(n, j, p, d); }
      var pair := m.ins[i].pair;
      if pair.Some? && m.outs[pair.value].ready { EmitKeeps(m, i, pair.value, d); }
    }
  }

  lemma SetOutKeeps(n: Net, o: nat, d: Option<(nat, nat)>)
    requires Inv(n, d) && o in n.outs
    ensures Inv(SetOutReady(n, o), d)
  {
    var m := n.(outs := n.outs[o := n.outs[o].(ready := true)]);
    var pair := m.outs[o].pair;
    forall j: nat, p: nat | pair != Some(j) ensures Known(m, j, p, d) { assert Known(n, j, p, d); }
    if pair.Some? && m.ins[pair.value].ready { EmitKeeps(m, pair.value, o, d); }
  }

  lemma UnsetKeeps(n: Net, op: Op, d: Option<(nat, nat)>)
    requires Inv(n, d) && Allowed(n, op) && (op.UnsetIn? || op.UnsetOut?)
    ensures Inv(Apply(n, op), d)
  {
    var m := Apply(n, op);
    forall j: nat, p: nat ensures Known(m, j, p, d) { assert Known(n, j, p, d); }
  }

  lemma ConnectKeeps(n: Net, i: nat, o: nat, d: Option<(nat, nat)>)
    requires Inv(n, d) && Allowed(n, Connect(i, o))
    ensures i !in n.queue && Inv(Apply(n, Connect(i, o)), d)
  {
    var m := n.(ins := n.ins[i := n.ins[i].(pair := Some(o))], outs := n.outs[o := n.outs[o].(pair := Some(i))]);
    assert i !in n.queue;
    forall j: nat, p: nat | j != i ensures Known(m, j, p, d) { assert Known(n, j, p, d); }
    if m.ins[i].ready && m.outs[o].ready { EmitKeeps(m, i, o, d); }
  }

  lemma DisconnectKeeps(n: Net, i: nat, o: nat, d: Option<(nat, nat)>)
    requires Inv(n, d) && Allowed(n, Disconnect(i, o))
    ensures Inv(Apply(n, Disconnect(i, o)), d)
  {
    UnlinkedMembers(n.queue, i);
    var m := Apply(n, Disconnect(i, o));
    forall j: nat, p: nat ensures Known(m, j, p, d) { assert Known(n, j, p, d); }
  }

  /** Every step through the API keeps the invariant, also from within a delivery; and the assertion
      that the event of a stream being connected is not queued holds. */
  lemma ApplyKeeps(n: Net, op: Op, d: Option<(nat, nat)>)
    requires Inv(n, d) && Allowed(n, op)
    ensures Inv(Apply(n, op), d)
    ensures op.Connect? ==> op.i !in n.queue
  {
    hide Inv;
    match op {
      case SetIn(i) => SetInKeeps(n, i, d);
      case SetOut(o) => SetOutKeeps(n, o, d);
      case Connect(i, o) => ConnectKeeps(n, i, o, d);
      case Disconnect(i, o) => DisconnectKeeps(n, i, o, d);
      case _ => UnsetKeeps(n, op, d);
    }
  }

  // ---------------------------------------------------------------- callbacks

  /** The calls a callback makes, in order; a call its caller does not owe the API is not made. */
  function Play(n: Net, ops: seq<Op>): (r: Net)
    decreases |ops|
  {
    if ops == [] then n else Play(One(n, ops[0]), ops[1..])
  }

  function One(n: Net, op: Op): (r: Net) {
    if Allowed(n, op) then Apply(n, op) else n
  }

  lemma {:induction false} PlayConcat(n: Net, a: seq<Op>, b: seq<Op>)
    ensures Play(n, a + b) == Play(Play(n, a), b)
    decreases |a|
  {
    hide One;
    if a == [] {
      assert a + b == b;
    } else {
      assert (a + b)[1..] == a[1..] + b;
      PlayConcat(One(n, a[0]), a[1..], b);
    }
  }

  lemma PlayLast(n: Net, ops: seq<Op>)
    requires ops != []
    ensures Play(n, ops) == One(Play(n, ops[..|ops| - 1]), ops[|ops| - 1])
  {
    var k := |ops| - 1;
    assert ops == ops[..k] + [ops[k]];
    PlayConcat(n, ops[..k], [ops[k]]);
    assert [ops[k]][1..] == [];
  }

  /** Calls that emit the event of `i`: they make the stream or its partner ready, or connect the two,
      while the other side is ready.  An output stream that is ready already emits again. */
  predicate Emits(n: Net, op: Op, i: nat) {
    && Allowed(n, op) && i in n.ins
    && match op
       case SetIn(j) => j == i && !n.ins[i].ready && n.ins[i].pair.Some?
                        && n.ins[i].pair.value in n.outs && n.outs[n.ins[i].pair.value].ready
       case SetOut(o) => n.outs[o].pair == Some(i) && n.ins[i].ready
       case Connect(j, o) => j == i && n.ins[i].ready && n.outs[o].ready
       case _ => false
  }

  /** Calls that take the event of `i` out of the queue. */
  predicate Drops(n: Net, op: Op, i: nat) {
    Allowed(n, op) && op.Disconnect? && op.i == i
  }

  lemma QueuedByOne(n: Net, op: Op, i: nat, d: Option<(nat, nat)>)
    requires Inv(n, d)
    ensures Inv(One(n, op), d)
    ensures i in One(n, op).queue <==> (i in n.queue && !Drops(n, op, i)) || Emits(n, op, i)
  {
    if Allowed(n, op) {
      ApplyKeeps(n, op, d);
      if op.Disconnect? { UnlinkedMembers(n.queue, op.i); }
    }
  }

  // ---------------------------------------------------------------- what the flags say

  /** The flags and partners of all streams are the same, except the ones named. */
  ghost predicate SameExcept(n: Net, m: Net, ins: set<nat>, outs: set<nat>) {
    && m.ins.Keys == n.ins.Keys && m.outs.Keys == n.outs.Keys
    && (forall j :: j in n.ins && j !in ins ==> m.ins[j].ready == n.ins[j].ready && m.ins[j].pair == n.ins[j].pair)
    && (forall p :: p in n.outs && p !in outs ==> m.outs[p] == n.outs[p])
  }

  /** After a call each flag is what the last call for it said: a stream set ready is ready, one unset is
      not, whatever its partner; connecting and disconnecting change the partners only; nothing else
      changes. */
  lemma FlagsByOne(n: Net, op: Op)
    ensures var m := One(n, op);
            match op
            case SetIn(i) => i in n.ins ==> SameExcept(n, m, {i}, {}) && m.ins[i].ready && m.ins[i].pair == n.ins[i].pair
            case UnsetIn(i) => i in n.ins ==>
                && SameExcept(n, m, {i}, {}) && !m.ins[i].ready && m.ins[i].pair == n.ins[i].pair && m.queue == n.queue
            case SetOut(o) => o in n.outs ==> SameExcept(n, m, {}, {o}) && m.outs[o] == OStream(true, n.outs[o].pair)
            case UnsetOut(o) => o in n.outs ==>
                SameExcept(n, m, {}, {o}) && m.outs[o] == OStream(false, n.outs[o].pair) && m.queue == n.queue
            case Connect(i, o) => i in n.ins && o in n.outs && n.ins[i].pair == None && n.outs[o].pair == None ==>
                && SameExcept(n, m, {i}, {o}) && m.ins[i].ready == n.ins[i].ready && m.ins[i].pair == Some(o)
                && m.outs[o] == OStream(n.outs[o].ready, Some(i))
            case Disconnect(i, o) => i in n.ins && o in n.outs && n.ins[i].pair == Some(o) && n.outs[o].pair == Some(i) ==>
                && SameExcept(n, m, {i}, {o}) && m.ins[i].ready == n.ins[i].ready && m.ins[i].pair == None
                && m.outs[o] == OStream(n.outs[o].ready, None)
    ensures !Allowed(n, op) ==> One(n, op) == n
  {
  }

  /** Calls that leave a connected pair connected and neither side unset. */
  predicate Leaves(op: Op, i: nat, o: nat) {
    op != UnsetIn(i) && op != UnsetOut(o) && (op.Disconnect? ==> op.i != i && op.o != o)
  }

  lemma LeavesOne(n: Net, op: Op, i: nat, o: nat)
    requires Paired(n) && i in n.ins && o in n.outs && n.ins[i].pair == Some(o) && Leaves(op, i, o)
    ensures var m := One(n, op);
            && i in m.ins && o in m.outs && m.ins[i].pair == Some(o)
            && (n.ins[i].ready || op == SetIn(i) ==> m.ins[i].ready)
            && (n.outs[o].ready || op == SetOut(o) ==> m.outs[o].ready)
  {
    if Allowed(n, op) { FlagsByOne(n, op); }
  }

  /** Whatever is called, in whatever order: if both sides of a connected pair are set ready and neither is
      unset nor the pair disconnected, the pair is ready and its event is queued. */
  lemma {:induction false} ReadyPairIsQueued(n: Net, ops: seq<Op>, i: nat, o: nat)
    requires Inv(n, None) && i in n.ins && o in n.outs && n.ins[i].pair == Some(o)
    requires forall op :: op in ops ==> Leaves(op, i, o)
    requires n.ins[i].ready || SetIn(i) in ops
    requires n.outs[o].ready || SetOut(o) in ops
    ensures BothReady(Play(n, ops), i, o) && i in Play(n, ops).queue
    decreases |ops|
  {
    hide Inv, Paired, One, Leaves;
    if ops == [] {
      ReadyIsQueued(n, i, o);
    } else {
      InvPaired(n);
      LeavesOne(n, ops[0], i, o);
      QueuedByOne(n, ops[0], i, None);
      assert forall op :: op in ops <==> op == ops[0] || op in ops[1..];
      ReadyPairIsQueued(One(n, ops[0]), ops[1..], i, o);
    }
  }

  lemma InvPaired(n: Net)
    requires Inv(n, None)
    ensures Paired(n)
  {
  }

  lemma ReadyIsQueued(n: Net, i: nat, o: nat)
    requires Inv(n, None) && BothReady(n, i, o)
    ensures i in n.queue
  {
    assert Known(n, i, o, None);
  }

  /** Among the calls there is one that emits the event of `i` and none behind it that drops it. */
  ghost predicate Emitted(n: Net, ops: seq<Op>, i: nat) {
    exists k: nat :: EmittedAt(n, ops, i, k)
  }

  ghost predicate EmittedAt(n: Net, ops: seq<Op>, i: nat, k: nat) {
    && k < |ops| && Emits(Play(n, ops[..k]), ops[k], i)
    && forall l :: k < l < |ops| ==> !Drops(Play(n, ops[..l]), ops[l], i)
  }

  lemma EmittedLast(n: Net, ops: seq<Op>, i: nat)
    requires ops != []
    ensures var k := |ops| - 1;
            var m := Play(n, ops[..k]);
            Emitted(n, ops, i) <==> Emits(m, ops[k], i) || (Emitted(n, ops[..k], i) && !Drops(m, ops[k], i))
  {
    hide Play, Emits, Drops;
    var k := |ops| - 1;
    var init := ops[..k];
    assert forall l :: 0 <= l <= k ==> init[..l] == ops[..l];
    if Emits(Play(n, init), ops[k], i) { assert EmittedAt(n, ops, i, k); }
    if Emitted(n, init, i) && !Drops(Play(n, init), ops[k], i) {
      var j: nat :| EmittedAt(n, init, i, j);
      assert EmittedAt(n, ops, i, j);
    }
    if Emitted(n, ops, i) {
      var j: nat :| EmittedAt(n, ops, i, j);
      if j < k { assert EmittedAt(n, init, i, j); }
    }
  }

  /** After any calls the event of `i` is queued exactly if it has been emitted and not dropped since. */
  lemma {:induction false} QueuedByPlay(n: Net, ops: seq<Op>, i: nat, d: Option<(nat, nat)>)
    requires Inv(n, d) && i !in n.queue
    ensures Inv(Play(n, ops), d) && (i in Play(n, ops).queue <==> Emitted(n, ops, i))
    decreases |ops|
  {
    hide Inv, Emitted, One, Emits, Drops;
    if ops == [] {
      NothingEmitted(n, i);
    } else {
      var k := |ops| - 1;
      QueuedByPlay(n, ops[..k], i, d);
      PlayLast(n, ops);
      EmittedLast(n, ops, i);
      QueuedByOne(Play(n, ops[..k]), ops[k], i, d);
    }
  }

  lemma NothingEmitted(n: Net, i: nat)
    ensures !Emitted(n, [], i)
  {
  }

  // ---------------------------------------------------------------- the loop

  /** Callbacks a delivery makes before it lets other events have their turn. */
  const TURNS := 50

  function Flat(scripts: seq<seq<Op>>): (r: seq<Op>)
    decreases |scripts|
  {
    if scripts == [] then [] else Flat(scripts[..|scripts| - 1]) + scripts[|scripts| - 1]
  }

  /** The delivery of the first event of the queue: its streams, and the state it starts from. */
  function First(n: Net): (r: (nat, nat))
    requires n.queue != [] && n.queue[0] in n.ins
  {
    (n.queue[0], n.ins[n.queue[0]].receiver)
  }

  function Begun(n: Net): (r: Net)
    requires n.queue != []
  {
    n.(queue := n.queue[1..])
  }

  /** The state after `t` callbacks of a delivery, the k-th of which makes the calls `scripts[k]`. */
  function AfterTurns(n: Net, scripts: seq<seq<Op>>, t: nat): (r: Net)
    requires n.queue != [] && t <= |scripts|
  {
    Play(Begun(n), Flat(scripts[..t]))
  }

  lemma NextTurn(n: Net, scripts: seq<seq<Op>>, t: nat)
    requires n.queue != [] && t < |scripts|
    ensures AfterTurns(n, scripts, t + 1) == Play(AfterTurns(n, scripts, t), scripts[t])
  {
    assert scripts[..t + 1][..t] == scripts[..t];
    PlayConcat(Begun(n), Flat(scripts[..t]), scripts[t]);
  }

  /** The pair stays ready through fifty callbacks. */
  ghost predicate Steady(n: Net, scripts: seq<seq<Op>>)
    requires n.queue != [] && n.queue[0] in n.ins && |scripts| == TURNS
  {
    forall t :: 0 <= t <= TURNS ==> BothReady(AfterTurns(n, scripts, t), First(n).0, First(n).1)
  }

  /** Exactly when the relinking assertion of a delivery fails: the pair is ready before the first and
      after each of fifty callbacks, and their calls emit its event without dropping it again. */
  ghost predicate Aborts(n: Net, scripts: seq<seq<Op>>)
    requires n.queue != [] && n.queue[0] in n.ins && |scripts| == TURNS
  {
    Steady(n, scripts) && Emitted(Begun(n), Flat(scripts), n.queue[0])
  }

  lemma Unqueued(n: Net)
    requires Inv(n, None) && n.queue != []
    ensures var i := n.queue[0];
            && i in n.ins && n.ins[i].pair == Some(n.ins[i].receiver) && n.ins[i].receiver in n.outs && n.outs[n.ins[i].receiver].pair == Some(i)
            && i !in n.queue[1..] && Inv(n.(queue := n.queue[1..]), Some((i, n.ins[i].receiver)))
  {
    var i, m := n.queue[0], n.(queue := n.queue[1..]);
    assert i in n.queue;
    assert n.queue == [i] + m.queue;
    forall j: nat, p: nat ensures Known(m, j, p, Some((i, n.ins[i].receiver))) { assert Known(n, j, p, None); }
  }

  lemma Delivered(n: Net, i: nat, o: nat)
    requires Inv(n, Some((i, o))) && (BothReady(n, i, o) ==> i in n.queue)
    ensures Inv(n, None)
  {
    forall j: nat, p: nat ensures Known(n, j, p, None) { assert Known(n, j, p, Some((i, o))); }
  }

  lemma Relinked(n: Net, i: nat, o: nat)
    requires Inv(n, Some((i, o))) && BothReady(n, i, o) && i !in n.queue
    ensures Inv(n.(queue := n.queue + [i]), None)
  {
    var m := n.(queue := n.queue + [i]);
    assert Known(n, i, o, Some((i, o)));
    forall j: nat, p: nat ensures Known(m, j, p, None) { assert Known(n, j, p, Some((i, o))); }
  }

  /** Streams are not created or destroyed within a callback. */
  ghost predicate SameStreams(n: Net, m: Net) {
    m.ins.Keys == n.ins.Keys && m.outs.Keys == n.outs.Keys
  }

  class Loop {
    var ins: map<nat, IStream>
    var outs: map<nat, OStream>
    var queue: seq<nat>

    function State(): (r: Net)
      reads this
    {
      Net(ins, outs, queue)
    }

    /** `nxe_link`, with the assertion it makes. */
    method Link(i: nat)
      requires i !in queue
      modifies this`queue
      ensures queue == old(queue) + [i]
    {
      queue := queue + [i];
    }

    /** `nxe_istream_set_ready` */
    method SetIn(i: nat)
      requires i in ins && Paired(State())
      modifies this`ins, this`queue
      ensures State() == SetInReady(old(State()), i)
    {
      if ins[i].ready { return; }
      ins := ins[i := ins[i].(ready := true)];
      var os := ins[i].pair;
      if os.Some? && outs[os.value].ready && i !in queue {
        ins := ins[i := ins[i].(receiver := os.value)];
        Link(i);
      }
    }

    /** `nxe_ostream_set_ready` */
    method SetOut(o: nat)
      requires o in outs && Paired(State())
      modifies this`ins, this`outs, this`queue
      ensures State() == SetOutReady(old(State()), o)
    {
      outs := outs[o := outs[o].(ready := true)];
      var from := outs[o].pair;
      if from.Some? && ins[from.value].ready && from.value !in queue {
        ins := ins[from.value := ins[from.value].(receiver := o)];
        Link(from.value);
      }
    }

    /** `nxe_connect_streams` */
    method Connect(i: nat, o: nat)
      requires Allowed(State(), Op.Connect(i, o)) && i !in queue
      modifies this`ins, this`outs, this`queue
      ensures State() == Apply(old(State()), Op.Connect(i, o))
    {
      ins := ins[i := ins[i].(pair := Some(o))];
      outs := outs[o := outs[o].(pair := Some(i))];
      if ins[i].ready && outs[o].ready {
        ins := ins[i := ins[i].(receiver := o)];
        Link(i);
      }
    }

    /** `nxe_disconnect_streams` */
    method Disconnect(i: nat, o: nat)
      requires Allowed(State(), Op.Disconnect(i, o))
      modifies this`ins, this`outs, this`queue
      ensures State() == Apply(old(State()), Op.Disconnect(i, o))
    {
      ins := ins[i := ins[i].(pair := None)];
      outs := outs[o := outs[o].(pair := None)];
      if i in queue {
        queue := Unlinked(queue, i);
      } else {
        UnlinkedAbsent(queue, i);
      }
    }

    method Do(op: Op, ghost d: Option<(nat, nat)>)
      requires Inv(State(), d) && Allowed(State(), op)
      modifies this
      ensures State() == Apply(old(State()), op) && Inv(State(), d)
    {
      ApplyKeeps(State(), op, d);
      match op {
        case SetIn(i) => SetIn(i);
        case UnsetIn(i) => ins := ins[i := ins[i].(ready := false)];
        case SetOut(o) => SetOut(o);
        case UnsetOut(o) => outs := outs[o := outs[o].(ready := false)];
        case Connect(i, o) => Connect(i, o);
        case Disconnect(i, o) => Disconnect(i, o);
      }
    }

    /** A `do_write` or `do_read` callback: it may make any calls of the API. */
    method Callback(script: seq<Op>, ghost d: Option<(nat, nat)>)
      requires Inv(State(), d)
      modifies this
      ensures State() == Play(old(State()), script)
      ensures Inv(State(), d) && SameStreams(old(State()), State())
    {
      hide Inv, Apply, Allowed;
      ghost var n := State();
      for k := 0 to |script|
        invariant Inv(State(), d) && SameStreams(n, State()) && State() == Play(n, script[..k])
      {
        PlayLast(n, script[..k + 1]);
        assert script[..k + 1][..k] == script[..k];
        if Allowed(State(), script[k]) {
          ApplySame(State(), script[k]);
          Do(script[k], d);
        }
      }
      assert script[..|script|] == script;
    }

    /** `stream_event_deliver` for the first event of the queue, when the callbacks make the calls of
        `scripts`.  `turns` is how many of them were called, and `aborted` that the assertion in
        `nxe_link` failed when the event was to be relinked. */
    method Deliver(scripts: seq<seq<Op>>) returns (turns: nat, aborted: bool)
      requires Inv(State(), None) && queue != [] && |scripts| == 50
      modifies this
      ensures old(queue[0] in ins) && turns <= 50
      ensures aborted <==> Aborts(old(State()), scripts)
      ensures !aborted ==> Inv(State(), None)
      ensures var (i, o) := First(old(State()));
              && (forall t :: 0 <= t < turns ==> BothReady(AfterTurns(old(State()), scripts, t), i, o))
              && (turns < 50 ==> !BothReady(AfterTurns(old(State()), scripts, turns), i, o))
              && var n := AfterTurns(old(State()), scripts, turns);
                 State() == if turns == 50 && BothReady(n, i, o) && !aborted then n.(queue := n.queue + [i]) else n
    {
      hide Inv, Apply, Play;
      ghost var n := State();
      Unqueued(n);
      var i := queue[0];
      var o := ins[i].receiver;
      queue := queue[1..];
      assert outs[o].pair == Some(i); // so the stream the event names is connected, and to this one
      turns, aborted := 0, false;
      NoTurns(n, scripts);
      while ins[i].ready && outs[o].ready && outs[o].pair == Some(i)
        invariant i in ins && o in outs && Inv(State(), Some((i, o))) && turns <= TURNS && !aborted
        invariant State() == AfterTurns(n, scripts, turns)
        invariant forall t :: 0 <= t < turns ==> BothReady(AfterTurns(n, scripts, t), i, o)
        decreases TURNS - turns
      {
        PartnersAgree(State(), Some((i, o)), o);
        if turns == TURNS {
          Requeued(n, scripts);
          aborted := i in queue;
          if !aborted {
            Relinked(State(), i, o);
            Link(i);
          }
          return;
        }
        NextTurn(n, scripts, turns);
        Callback(scripts[turns], Some((i, o)));
        turns := turns + 1;
      }
      Apart(State(), i, o, Some((i, o)));
      Delivered(State(), i, o);
    }
  }

  lemma NoTurns(n: Net, scripts: seq<seq<Op>>)
    requires n.queue != []
    ensures AfterTurns(n, scripts, 0) == Begun(n)
  {
  }

  /** After fifty callbacks the event is queued exactly if their calls emitted it last. */
  lemma Requeued(n: Net, scripts: seq<seq<Op>>)
    requires Inv(n, None) && n.queue != [] && |scripts| == TURNS
    ensures n.queue[0] in AfterTurns(n, scripts, TURNS).queue <==> Emitted(Begun(n), Flat(scripts), n.queue[0])
  {
    Unqueued(n);
    assert scripts[..TURNS] == scripts;
    QueuedByPlay(Begun(n), Flat(scripts), n.queue[0], Some(First(n)));
  }

  lemma {:induction false} UnlinkedAbsent(q: seq<nat>, i: nat)
    requires i !in q
    ensures Unlinked(q, i) == q
    decreases |q|
  {
    if q != [] { UnlinkedAbsent(q[1..], i); }
  }

  lemma ApplySame(n: Net, op: Op)
    requires Allowed(n, op)
    ensures SameStreams(n, Apply(n, op))
  {
  }

  lemma Apart(n: Net, i: nat, o: nat, d: Option<(nat, nat)>)
    requires Inv(n, d) && i in n.ins && o in n.outs && !(n.ins[i].ready && n.outs[o].ready && n.outs[o].pair == Some(i))
    ensures !BothReady(n, i, o)
  {
  }

  lemma PartnersAgree(n: Net, d: Option<(nat, nat)>, o: nat)
    requires Inv(n, d) && o in n.outs && n.outs[o].pair.Some?
    ensures var i := n.outs[o].pair.value;
            i in n.ins && n.ins[i].pair == Some(o)
  {
  }

  // ---------------------------------------------------------------- who aborts

  /** A call that does not touch the readiness of the pair under delivery from outside: it neither makes
      one of the two ready nor connects the input stream. */
  predicate Quiet(op: Op, i: nat, o: nat) {
    op != SetIn(i) && op != SetOut(o) && !(op.Connect? && op.i == i)
  }

  /** As long as nobody connects `i` anew, its partner stays or goes. */
  lemma {:induction false} QuietPlay(n: Net, ops: seq<Op>, i: nat, o: nat, d: Option<(nat, nat)>)
    requires Inv(n, d) && i !in n.queue && i in n.ins && n.ins[i].pair in {Some(o), None}
    requires forall k :: 0 <= k < |ops| ==> Quiet(ops[k], i, o)
    ensures var m := Play(n, ops);
            Inv(m, d) && i !in m.queue && i in m.ins && m.ins[i].pair in {Some(o), None}
    decreases |ops|
  {
    hide Inv, One, Quiet;
    if ops != [] {
      var k := |ops| - 1;
      QuietPlay(n, ops[..k], i, o, d);
      PlayLast(n, ops);
      QuietOne(Play(n, ops[..k]), ops[k], i, o, d);
    }
  }

  lemma QuietOne(n: Net, op: Op, i: nat, o: nat, d: Option<(nat, nat)>)
    requires Inv(n, d) && i !in n.queue && i in n.ins && n.ins[i].pair in {Some(o), None} && Quiet(op, i, o)
    ensures var m := One(n, op);
            Inv(m, d) && i !in m.queue && i in m.ins && m.ins[i].pair in {Some(o), None}
  {
    QueuedByOne(n, op, i, d);
  }

  lemma {:induction false} FlatMembers(scripts: seq<seq<Op>>, i: nat, o: nat)
    requires forall t, k :: 0 <= t < |scripts| && 0 <= k < |scripts[t]| ==> Quiet(scripts[t][k], i, o)
    ensures forall k :: 0 <= k < |Flat(scripts)| ==> Quiet(Flat(scripts)[k], i, o)
    decreases |scripts|
  {
    hide Quiet;
    if scripts != [] { FlatMembers(scripts[..|scripts| - 1], i, o); }
  }

  /** Callbacks that only take readiness away from their own pair, whatever they do to other streams,
      never make a delivery abort. */
  lemma QuietNeverAborts(n: Net, scripts: seq<seq<Op>>)
    requires Inv(n, None) && n.queue != [] && |scripts| == TURNS && n.queue[0] in n.ins
    requires forall t, k :: 0 <= t < |scripts| && 0 <= k < |scripts[t]| ==> Quiet(scripts[t][k], First(n).0, First(n).1)
    ensures !Aborts(n, scripts)
  {
    hide Play, Quiet;
    Unqueued(n);
    FlatMembers(scripts, First(n).0, First(n).1);
    QuietPlay(Begun(n), Flat(scripts), First(n).0, First(n).1, Some(First(n)));
    assert scripts[..TURNS] == scripts;
    Requeued(n, scripts);
  }

  /** Forty-nine callbacks that do nothing, and one that says its ready output stream is ready. */
  function Repeat(o: nat): (r: seq<seq<Op>>) {
    seq(TURNS, t => if t == TURNS - 1 then [SetOut(o)] else [])
  }

  lemma {:induction false} RepeatFlat(o: nat, t: nat)
    requires t <= TURNS
    ensures Flat(Repeat(o)[..t]) == if t == TURNS then [SetOut(o)] else []
    decreases t
  {
    if t > 0 {
      RepeatFlat(o, t - 1);
      assert Repeat(o)[..t][..t - 1] == Repeat(o)[..t - 1];
    }
  }

  /** Any delivery to a ready pair aborts if the last of its fifty callbacks merely sets the output
      stream ready that is ready already. */
  lemma RepeatedReadyAborts(n: Net)
    requires Inv(n, None) && n.queue != [] && n.queue[0] in n.ins && BothReady(n, First(n).0, First(n).1)
    ensures Aborts(n, Repeat(First(n).1))
  {
    var (i, o) := First(n);
    var m, scripts := Begun(n), Repeat(o);
    Unqueued(n);
    assert Play(m, [SetOut(o)]) == One(m, SetOut(o)) by { assert [SetOut(o)][1..] == []; }
    forall t | 0 <= t <= TURNS ensures BothReady(AfterTurns(n, scripts, t), i, o) { RepeatFlat(o, t); }
    RepeatFlat(o, TURNS);
    assert scripts[..TURNS] == scripts;
    assert [SetOut(o)][..0] == [];
    assert EmittedAt(m, Flat(scripts), i, 0);
  }

  /** Two ready streams and their queued event: such a delivery exists. */
  lemma SomeDeliveryAborts() returns (n: Net)
    ensures Inv(n, None) && n.queue == [0] && 0 in n.ins && Aborts(n, Repeat(0))
  {
    n := Net(map[0 := IStream(true, Some(0), 0)], map[0 := OStream(true, Some(0))], [0]);
    assert Inv(n, None);
    RepeatedReadyAborts(n);
  }
}
