/** The streamer: the streams of a list of nodes, one after the other, as one stream. */
module Streamer {
  import opened Octets

  /** A node with the stream its source produces and how much of it has been passed on. */
  datatype Node = Node(final: bool, complete: bool, ready: bool, stream: seq<Byte>, taken: nat)

  /** The streams of the first `n` nodes, in order. */
  ghost function Streams(nodes: seq<Node>, n: nat): (r: seq<Byte>)
    requires n <= |nodes|
  {
    if n == 0 then [] else Streams(nodes, n - 1) + nodes[n - 1].stream
  }

  lemma {:induction false} StreamsSplit(nodes: seq<Node>, i: nat, n: nat)
    requires i <= n <= |nodes|
    ensures Streams(nodes, n) == Streams(nodes, i) + Streams(nodes[i..], n - i)
    decreases n
  {
    if i == n {
      assert Streams(nodes, i) + [] == Streams(nodes, i);
    } else {
      StreamsSplit(nodes, i, n - 1);
      assert nodes[i..][n - i - 1] == nodes[n - 1];
    }
  }

  /** The streams of those of the first `n` nodes that were not skipped. */
  ghost function Kept(nodes: seq<Node>, skips: set<nat>, n: nat): (s: seq<Byte>)
    requires n <= |nodes|
  {
    if n == 0 then [] else Kept(nodes, skips, n - 1) + if n - 1 in skips then [] else nodes[n - 1].stream
  }

  lemma KeptNext(nodes: seq<Node>, skips: set<nat>, n: nat)
    requires n < |nodes| && n !in skips
    ensures Kept(nodes, skips, n + 1) == Kept(nodes, skips, n) + nodes[n].stream
  {
  }

  lemma {:induction false} KeptSame(a: seq<Node>, b: seq<Node>, skips: set<nat>, n: nat)
    requires n <= |a| && n <= |b| && forall i :: 0 <= i < n ==> a[i].stream == b[i].stream
    ensures Kept(a, skips, n) == Kept(b, skips, n)
    decreases n
  {
    if n > 0 { KeptSame(a, b, skips, n - 1); }
  }

  /** Skipping nodes from `m` on leaves what was kept before and adds nothing. */
  lemma {:induction false} KeptSkip(nodes: seq<Node>, skips: set<nat>, more: set<nat>, m: nat, n: nat)
    requires m <= n <= |nodes|
    requires forall i: nat :: i < n ==> (i in more <==> i in skips || m <= i)
    ensures Kept(nodes, more, n) == Kept(nodes, skips, m)
    decreases n
  {
    if n > 0 {
      if m < n { KeptSkip(nodes, skips, more, m, n - 1); } else { KeptSkip(nodes, skips, more, m - 1, n - 1); }
    }
  }

  lemma {:induction false} KeptPrefix(nodes: seq<Node>, skips: set<nat>, m: nat, n: nat)
    requires m <= n <= |nodes|
    ensures Kept(nodes, skips, m) <= Kept(nodes, skips, n)
    decreases n
  {
    if m < n { KeptPrefix(nodes, skips, m, n - 1); }
  }

  /** Without skips below `n`, all streams are kept. */
  lemma {:induction false} KeptAll(nodes: seq<Node>, skips: set<nat>, n: nat)
    requires n <= |nodes| && forall i: nat :: i < n ==> i !in skips
    ensures Kept(nodes, skips, n) == Streams(nodes, n)
    decreases n
  {
    if n > 0 { KeptAll(nodes, skips, n - 1); }
  }

  /** Nodes before the current one have been passed on whole, except those that were skipped, of which
      nothing has been; nor has of those behind it. The current one is complete only if it is the
      last or a final one. */
  ghost predicate NodesRight(nodes: seq<Node>, current: int, skips: set<nat>) {
    && (forall i: nat :: i < |nodes| ==> NodeRight(nodes[i], i - current, i in skips, i == |nodes| - 1))
    && forall i :: i in skips ==> i < |nodes|
  }

  ghost predicate NodeRight(n: Node, distance: int, skipped: bool, last: bool) {
    && n.taken <= |n.stream| && (n.complete ==> n.taken == |n.stream|)
    && (skipped ==> distance < 0) && (distance < 0 && !skipped ==> n.complete)
    && (skipped || distance > 0 ==> !n.complete && n.taken == 0)
    && (distance == 0 && n.complete ==> last || n.final)
  }

  /** What has been passed on: all of the nodes before the current one that were not skipped, and part of
      its own stream. */
  ghost predicate OutRight(nodes: seq<Node>, current: int, skips: set<nat>, out: seq<Byte>) {
    if 0 <= current < |nodes| then
      nodes[current].taken <= |nodes[current].stream|
      && out == Kept(nodes, skips, current) + nodes[current].stream[..nodes[current].taken]
    else out == []
  }

  /** Only the last node is final. The end has been passed on only behind everything: that node is
      complete, or the streamer was closed empty; and only such a streamer has its end forced. */
  ghost predicate EofRight(nodes: seq<Node>, forceEof: bool, eof: bool) {
    && (forall i :: 0 <= i < |nodes| - 1 ==> !nodes[i].final)
    && if nodes == [] then eof ==> forceEof
       else eof || forceEof ==> nodes[|nodes| - 1].final && nodes[|nodes| - 1].complete
  }

  /** The order of what is passed on, always; its end and that nothing is skipped, unless a node was
      added to a closed streamer (`late`). */
  ghost predicate Sound(nodes: seq<Node>, current: int, out: seq<Byte>, forceEof: bool, eof: bool, late: bool, skips: set<nat>) {
    && NodesRight(nodes, current, skips) && OutRight(nodes, current, skips, out)
    && (late || (skips == {} && EofRight(nodes, forceEof, eof)))
  }

  class Streamer {
    var nodes: seq<Node>
    /** The current node, or -1. */
    var current: int
    var running: bool
    var forceEof: bool
    /** Ready flag of `data_out`. */
    var ready: bool
    /** What the next stream has taken, and whether the end has been passed on to it. */
    var out: seq<Byte>
    var eof: bool
    /** Whether a node was added after the streamer was closed or got its final node, and the nodes that a
        node started behind them has left out. */
    ghost var late: bool
    ghost var skips: set<nat>

    ghost predicate Valid()
      reads this
    {
      && -1 <= current < |nodes| && (current >= 0 ==> running) && (running && nodes != [] ==> current >= 0)
      && Sound(nodes, current, out, forceEof, eof, late, skips)
      && (ready && current < 0 ==> forceEof && running)
    }

    /** Somebody is waited for: a current node that is not complete has its output or its own stream ready,
        and a streamer whose end is due by force has its output ready. */
    predicate Awake()
      reads this
    {
      running ==>
        if 0 <= current < |nodes| then nodes[current].complete || ready || nodes[current].ready
        else forceEof && !eof ==> ready
    }

    predicate Closed()
      reads this
    {
      forceEof || (nodes != [] && nodes[|nodes| - 1].final)
    }

    constructor ()
      ensures Valid() && nodes == [] && out == [] && !eof && !running && !forceEof && current == -1 && !late && skips == {}
      ensures !ready && Awake()
    {
      hide Sound;
      nodes, current, running, forceEof, ready, out, eof, late, skips := [], -1, false, false, false, [], false, false, {};
      new;
      StartSound(nodes, current, out, skips);
    }

    /** `nxd_streamer_node_start`, with the assertion it makes. */
    method StartNode(k: nat)
      requires k < |nodes| && !nodes[k].complete
      modifies this`current, this`nodes
      ensures current == k && nodes == old(nodes)[k := old(nodes)[k].(ready := true)]
    {
      current := k;
      nodes := nodes[k := nodes[k].(ready := true)];
    }

    /** `nxd_streamer_add_node` */
    method AddNode(stream: seq<Byte>, final: bool)
      requires Valid()
      modifies this`nodes, this`current, this`late, this`skips
      ensures Valid() && late == (old(late) || old(Closed())) && |nodes| == |old(nodes)| + 1
      ensures current == old(current) ==> skips == old(skips)
      ensures current != old(current) ==> forall i: nat :: i in skips <==> i in old(skips) || old(current) < i < |old(nodes)|
      ensures nodes == old(nodes) + [Node(final, false, current == |old(nodes)|, stream, 0)]
      ensures old(Awake()) ==> Awake()
      ensures current == if running && (old(current) < 0 || old(nodes)[old(current)].complete) then |old(nodes)| else old(current)
    {
      hide Sound, Streams;
      var k, n := |nodes|, Node(final, false, false, stream, 0);
      AddSound(nodes, current, out, forceEof, eof, late, skips, n, running, late || Closed());
      late := late || Closed();
      if running && (current < 0 || nodes[current].complete) {
        skips := Left(skips, current, k);
        nodes := nodes + [n];
        StartNode(k);
      } else {
        nodes := nodes + [n];
      }
    }

    /** `nxd_streamer_start` */
    method Start()
      requires Valid() && !running
      modifies this
      ensures Valid() && running && out == old(out) && |nodes| == |old(nodes)| && forceEof == old(forceEof) && eof == old(eof)
      ensures late == old(late) && skips == old(skips) && current == (if nodes == [] then -1 else 0)
      ensures nodes == if old(nodes) == [] then [] else old(nodes)[0 := old(nodes)[0].(ready := true)]
      ensures ready <==> old(ready) || (nodes == [] && forceEof)
      ensures Awake()
    {
      hide Sound;
      running := true;
      if nodes != [] {
        FirstSound(nodes, out, forceEof, eof, late, skips);
        StartNode(0);
      } else if forceEof {
        ready := true;
      }
    }

    /** `nxd_streamer_close`: the last node becomes the final one. */
    method Close()
      requires Valid()
      modifies this`nodes, this`forceEof, this`ready
      ensures Valid() && Closed() && |nodes| == |old(nodes)|
      ensures forceEof <==> old(forceEof) || nodes == [] || old(nodes)[|nodes| - 1].complete
      ensures ready <==> old(ready) || (running && forceEof)
      ensures old(Awake()) ==> Awake()
      ensures forall i :: 0 <= i < |nodes| ==> nodes[i] == if i == |nodes| - 1 then old(nodes)[i].(final := true) else old(nodes)[i]
    {
      hide Sound;
      var k := |nodes| - 1;
      if nodes == [] {
        ForcedSound(current, out, forceEof, eof, late, skips);
        forceEof := true;
      } else {
        FlagSound(nodes, current, out, forceEof, eof, late, skips, k, nodes[k].(final := true));
        nodes := nodes[k := nodes[k].(final := true)];
        if nodes[k].complete {
          DueSound(nodes, current, out, forceEof, eof, late, skips);
          forceEof := true;
        }
      }
      if running && forceEof { ready := true; }
    }

    /** `streamer_data_in_write` for node `k`: the next stream, if it is `linked` and ready, takes `n` octets,
        and `nextReady` tells whether it is ready afterwards.  The end is passed on exactly with the last
        octets of a final current node.  Such a node completes without its end being passed on exactly
        if it has no data left to offer, just its end, while the next stream is not ready. */
    method Write(k: nat, data: seq<Byte>, end: bool, linked: bool, wasReady: bool, n: nat, nextReady: bool)
      returns (sent: nat)
      requires Valid() && k < |nodes| && Offered(nodes[k], data) && (end ==> nodes[k].taken + |data| == |nodes[k].stream|)
      requires n <= |data| && (wasReady || nextReady ==> linked)
      modifies this
      ensures Valid() && running == old(running) && forceEof == old(forceEof) && late == old(late) && skips == old(skips) && |nodes| == |old(nodes)|
      ensures sent == (if k == old(current) && wasReady then n else 0) && out == old(out) + data[..sent]
      ensures ready <==> (old(ready) || (k == old(current) && (data != [] || end) && linked && !nextReady))
                         && !Last(k, old(current), old(nodes), end && sent == |data|)
      ensures nodes[k].ready <==> k == old(current) && old(nodes)[k].ready && ((data == [] && !end) || nextReady)
                                  && !Last(k, old(current), old(nodes), end && sent == |data|)
      ensures eof <==> old(eof) || (k == old(current) && old(nodes)[k].final && end && wasReady && n == |data|)
      ensures nodes[k].complete <==> old(nodes)[k].complete || (k == old(current) && end && sent == |data|)
      ensures k == old(current) && old(nodes)[k].final && !old(nodes)[k].complete && !old(eof) ==>
                (nodes[k].complete && !eof <==> end && data == [] && !wasReady)
      ensures nodes[k].final == old(nodes)[k].final && nodes[k].stream == old(nodes)[k].stream
      ensures nodes[k].taken == old(nodes)[k].taken + sent
      ensures forall i :: 0 <= i < |nodes| && i != k ==>
                nodes[i] == if i == current != old(current) then old(nodes)[i].(ready := true) else old(nodes)[i]
      ensures old(Awake()) && linked ==> Awake()
      ensures current == if k == old(current) && end && sent == |data| && !old(nodes)[k].final && k + 1 < |nodes| then k + 1 else old(current)
    {
      hide Sound, Offered;
      if k != current {
        Flag(k, false);
        assert out == out + data[..0];
        return 0;
      }
      var last := nodes[k].final && end && wasReady && n == |data|;
      sent := Forward(data, end, linked, wasReady, n, nextReady);
      if end && sent == |data| {
        Complete();
        if last {
          PassedSound(nodes, current, out, forceEof, eof, late, skips, k);
          eof := true;
        }
      }
    }

    /** The part of `streamer_data_in_write` that passes data on. */
    method Forward(data: seq<Byte>, end: bool, linked: bool, wasReady: bool, n: nat, nextReady: bool) returns (sent: nat)
      requires Valid() && 0 <= current && Offered(nodes[current], data) && n <= |data|
      modifies this`nodes, this`out, this`ready
      ensures ready == (old(ready) || ((|data| > 0 || end) && linked && !nextReady))
      ensures Valid() && sent == (if wasReady then n else 0) && out == old(out) + data[..sent] && |nodes| == |old(nodes)|
      ensures var n := old(nodes)[current];
              nodes[current] == n.(taken := n.taken + sent, ready := n.ready && ((data == [] && !end) || nextReady))
      ensures forall i :: 0 <= i < |nodes| && i != current ==> nodes[i] == old(nodes)[i]
    {
      hide Sound, Offered;
      sent := 0;
      if |data| > 0 || end {
        if wasReady {
          sent := n;
          Pass(data, n);
        }
        if !nextReady {
          Flag(current, false);
          ready := ready || linked;
        }
      }
      assert sent == 0 ==> out == old(out) + data[..0];
    }

    /** The next stream takes `n` octets from the current node. */
    method Pass(data: seq<Byte>, n: nat)
      requires Valid() && 0 <= current && Offered(nodes[current], data) && n <= |data|
      modifies this`nodes, this`out
      ensures Valid() && out == old(out) + data[..n]
      ensures nodes == old(nodes)[current := old(nodes)[current].(taken := old(nodes)[current].taken + n)]
    {
      hide Sound;
      var now := nodes[current].(taken := nodes[current].taken + n);
      TakeSound(nodes, current, out, forceEof, eof, late, skips, data, n, now);
      out := out + data[..n];
      nodes := nodes[current := now];
    }

    /** The current node's stream has ended. */
    method Complete()
      requires Valid() && 0 <= current && nodes[current].taken == |nodes[current].stream|
      modifies this`nodes, this`current, this`ready
      ensures Valid() && |nodes| == |old(nodes)|
      ensures ready <==> old(ready) && (old(nodes)[old(current)].final || old(current) + 1 < |nodes|)
      ensures var n := old(nodes)[old(current)];
              nodes[old(current)] == n.(complete := true, ready := n.ready && (n.final || old(current) + 1 < |nodes|))
      ensures forall i :: 0 <= i < |nodes| && i != old(current) ==>
                nodes[i] == if i == current then old(nodes)[i].(ready := true) else old(nodes)[i]
      ensures current == if !old(nodes)[old(current)].final && old(current) + 1 < |nodes| then old(current) + 1 else old(current)
    {
      hide Sound;
      var k := current;
      var now := nodes[k].(complete := true);
      CompleteSound(nodes, k, out, forceEof, eof, late, skips, now);
      nodes := nodes[k := now];
      if !now.final {
        if k + 1 < |nodes| {
          StartNode(k + 1);
        } else {
          ready := false;
          FlagSound(nodes, current, out, forceEof, eof, late, skips, k, now.(ready := false));
          nodes := nodes[k := now.(ready := false)];
        }
      }
    }

    /** `streamer_data_out_do_write`.  `source` tells whether the current node's source is connected, ready
        and what it then writes; `stays` whether it is ready afterwards.  If it is not, the node's stream
        waits for it instead of the output.  Without a current node the
        streamer was closed empty, as the code asserts.  The end goes out exactly if there is no current
        node, or the current node is final and its source writes its end and all of it is taken. */
    method DoWrite(source: Source, stays: bool)
      requires Valid() && ready
      requires source.Writes? && current >= 0 ==>
                 var n := nodes[current];
                 Offered(n, source.data) && (source.end ==> n.taken + |source.data| == |n.stream|) && source.n <= |source.data|
      requires stays ==> source.Writes?
      modifies this
      ensures Valid() && forceEof == old(forceEof) && late == old(late) && skips == old(skips) && |nodes| == |old(nodes)|
      ensures eof <==> old(eof) || old(current) < 0
                       || (old(nodes)[old(current)].final && source.Writes? && source.end && source.n == |source.data|)
      ensures out == if old(current) >= 0 && source.Writes? then old(out) + source.data[..source.n] else old(out)
      ensures old(current) < 0 ==> forceEof && !ready
      ensures old(current) >= 0 ==>
                (ready <==> stays && !Last(old(current), old(current), old(nodes), source.end && source.n == |source.data|))
      ensures old(current) < 0 || source.Absent? ==> nodes == old(nodes)
      ensures old(current) >= 0 ==>
                var k, n := old(current), old(nodes)[old(current)];
                var done := source.Writes? && source.end && source.n == |source.data|;
                && nodes[k].complete == (n.complete || done)
                && nodes[k].taken == n.taken + (if source.Writes? then source.n else 0)
                && current == (if done && !n.final && k + 1 < |nodes| then k + 1 else k)
      ensures old(current) >= 0 && !stays && !source.Absent? ==> nodes[old(current)].ready
      ensures !source.Absent? ==> Awake()
    {
      hide Sound, Offered;
      if current < 0 {
        assert forceEof && nodes == [];
        ForcedSound(current, out, forceEof, eof, late, skips);
        eof, ready := true, false;
        return;
      }
      if source.Absent? {
        ready := false;
        return;
      }
      var k := current;
      if source.Writes? {
        OfferedReady(nodes[k], true, source.data);
        Flag(k, true);
        var sent := Write(k, source.data, source.end, true, true, source.n, source.nextReady);
      }
      if !stays {
        ready := false;
        Flag(k, true);
      }
    }

    method Flag(k: nat, on: bool)
      requires Valid() && k < |nodes|
      modifies this`nodes
      ensures Valid() && nodes == old(nodes)[k := old(nodes)[k].(ready := on)]
    {
      hide Sound;
      FlagSound(nodes, current, out, forceEof, eof, late, skips, k, nodes[k].(ready := on));
      nodes := nodes[k := nodes[k].(ready := on)];
    }
  }

  /** A streamer closed after its last node has completed does not pass its end on by itself: unless the
      node's source writes once more, its output goes idle with the end still due. */
  method LateClose() returns (forced: bool, passed: bool, ready: bool)
    ensures forced && !passed && !ready
  {
    var s := new Streamer();
    s.Start();
    s.AddNode([], false);
    var sent := s.Write(0, [], true, true, true, 0, true);
    s.Close();
    s.DoWrite(Idle, false);
    forced, passed, ready := s.forceEof, s.eof, s.ready;
  }

  /** The end of a final node that comes alone while the next stream is not ready completes the node, but
      is not passed on; nor is it forced. */
  method EndUnsent() returns (complete: bool, passed: bool, forced: bool)
    ensures complete && !passed && !forced
  {
    var s := new Streamer();
    s.Start();
    s.AddNode([], true);
    var sent := s.Write(0, [], true, true, false, 0, false);
    complete, passed, forced := s.nodes[0].complete, s.eof, s.forceEof;
  }

  /** Of two nodes added behind a final one, the first is skipped if the second comes after the final one
      has completed, and the order is broken. */
  method LateAdd() returns (out: seq<Byte>, ended: bool)
    ensures ended && out == [1, 3] && !(out <= [1, 2, 3])
  {
    var s := new Streamer();
    s.Start();
    s.AddNode([1], true);
    s.AddNode([2], false);
    assert [1][0..1] == [1] && s.nodes[0] == s.nodes[..1][0];
    var sent := s.Write(0, [1], true, true, true, 1, true);
    s.AddNode([3], false);
    assert [3][0..1] == [3];
    sent := s.Write(2, [3], false, true, true, 1, true);
    assert [1][..1] == [1] && [3][..1] == [3] && [] + [1] + [3] == [1, 3];
    assert [1, 3][1] == 3 && [1, 2, 3][1] == 2;
    out, ended := s.out, s.eof;
  }

  /** What the current node's source does when the streamer asks it to write. */
  datatype Source = Absent | Idle | Writes(data: seq<Byte>, end: bool, n: nat, nextReady: bool)

  /** Whether node `k`, if it is `done`, is the current one with none behind it, and not a final one. */
  predicate Last(k: nat, current: int, nodes: seq<Node>, done: bool)
    requires k < |nodes|
  {
    done && k == current && !nodes[k].final && k + 1 == |nodes|
  }

  /** The nodes between the current one and the one that is started behind it. */
  ghost function Left(skips: set<nat>, current: int, k: nat): (more: set<nat>)
    ensures forall i: nat :: i in more <==> i in skips || current < i < k
    ensures current == k - 1 ==> more == skips
    decreases k
  {
    if k == 0 || current >= k - 1 then skips else Left(skips, current, k - 1) + {k - 1}
  }

  // ---------------------------------------------------------------- soundness

  lemma OfferedReady(n: Node, on: bool, data: seq<Byte>)
    requires Offered(n, data)
    ensures Offered(n.(ready := on), data)
  {
  }

  lemma StartSound(nodes: seq<Node>, current: int, out: seq<Byte>, skips: set<nat>)
    requires nodes == [] && current == -1 && out == [] && skips == {}
    ensures Sound(nodes, current, out, false, false, false, skips)
  {
  }

  /** An empty streamer whose end is due, whether or not it has been passed on. */
  lemma ForcedSound(current: int, out: seq<Byte>, forceEof: bool, eof: bool, late: bool, skips: set<nat>)
    requires Sound([], current, out, forceEof, eof, late, skips)
    ensures forall passed :: Sound([], current, out, true, passed, late, skips)
  {
  }

  lemma FlagSound(nodes: seq<Node>, current: int, out: seq<Byte>, forceEof: bool, eof: bool, late: bool, skips: set<nat>,
                  k: nat, now: Node)
    requires Sound(nodes, current, out, forceEof, eof, late, skips) && k < |nodes|
    requires now.stream == nodes[k].stream && now.taken == nodes[k].taken && now.complete == nodes[k].complete
    requires now.final == nodes[k].final || (k == |nodes| - 1 && now.final)
    ensures Sound(nodes[k := now], current, out, forceEof, eof, late, skips)
  {
    hide NodesRight, OutRight;
    FlagRight(nodes, current, out, skips, k, now);
  }

  lemma FlagRight(nodes: seq<Node>, current: int, out: seq<Byte>, skips: set<nat>, k: nat, now: Node)
    requires NodesRight(nodes, current, skips) && OutRight(nodes, current, skips, out) && k < |nodes|
    requires now.stream == nodes[k].stream && now.taken == nodes[k].taken && now.complete == nodes[k].complete
    requires nodes[k].final ==> now.final
    ensures NodesRight(nodes[k := now], current, skips) && OutRight(nodes[k := now], current, skips, out)
  {
    hide Kept;
    assert NodeRight(nodes[k], k - current, k in skips, k == |nodes| - 1);
    if 0 <= current < |nodes| { KeptSame(nodes, nodes[k := now], skips, current); }
  }

  lemma DueSound(nodes: seq<Node>, current: int, out: seq<Byte>, forceEof: bool, eof: bool, late: bool, skips: set<nat>)
    requires Sound(nodes, current, out, forceEof, eof, late, skips) && nodes != []
    requires nodes[|nodes| - 1].final && nodes[|nodes| - 1].complete
    ensures Sound(nodes, current, out, true, eof, late, skips)
  {
  }

  lemma PassedSound(nodes: seq<Node>, current: int, out: seq<Byte>, forceEof: bool, eof: bool, late: bool, skips: set<nat>, k: nat)
    requires Sound(nodes, current, out, forceEof, eof, late, skips) && k < |nodes| && nodes[k].final && nodes[k].complete
    ensures Sound(nodes, current, out, forceEof, true, late, skips)
  {
  }

  lemma FirstSound(nodes: seq<Node>, out: seq<Byte>, forceEof: bool, eof: bool, late: bool, skips: set<nat>)
    requires nodes != [] && Sound(nodes, -1, out, forceEof, eof, late, skips)
    ensures !nodes[0].complete && Sound(nodes[0 := nodes[0].(ready := true)], 0, out, forceEof, eof, late, skips)
  {
    assert forall i: nat :: i < |nodes| ==> NodeRight(nodes[i], i + 1, i in skips, i == |nodes| - 1);
    assert nodes[0].stream[..0] == [];
  }

  lemma TakeSound(nodes: seq<Node>, current: nat, out: seq<Byte>, forceEof: bool, eof: bool, late: bool, skips: set<nat>,
                  data: seq<Byte>, n: nat, now: Node)
    requires current < |nodes| && Sound(nodes, current, out, forceEof, eof, late, skips)
    requires Offered(nodes[current], data) && n <= |data|
    requires now == nodes[current].(taken := nodes[current].taken + n)
    ensures Sound(nodes[current := now], current, out + data[..n], forceEof, eof, late, skips)
  {
    var there, was := nodes[current := now], nodes[current];
    assert NodeRight(was, 0, current in skips, current == |nodes| - 1);
    KeptSame(nodes, there, skips, current);
    TakenPart(Kept(nodes, skips, current), was.stream, was.taken, data, n);
  }

  lemma TakenPart(before: seq<Byte>, stream: seq<Byte>, taken: nat, data: seq<Byte>, n: nat)
    requires n <= |data| && taken + |data| <= |stream| && data == stream[taken..taken + |data|]
    ensures before + stream[..taken] + data[..n] == before + stream[..taken + n]
  {
    assert stream[..taken] + data[..n] == stream[..taken + n];
  }

  /** A source offers what comes next in its stream. */
  ghost predicate Offered(n: Node, data: seq<Byte>) {
    n.taken + |data| <= |n.stream| && data == n.stream[n.taken..n.taken + |data|]
  }

  /** The current node is complete: unless it is final, the next one, if there is one, takes its place. */
  lemma CompleteSound(nodes: seq<Node>, current: nat, out: seq<Byte>, forceEof: bool, eof: bool, late: bool, skips: set<nat>,
                      now: Node)
    requires current < |nodes| && Sound(nodes, current, out, forceEof, eof, late, skips)
    requires nodes[current].taken == |nodes[current].stream| && now == nodes[current].(complete := true)
    ensures var there := nodes[current := now];
            && (now.final || current == |nodes| - 1 ==> Sound(there, current, out, forceEof, eof, late, skips))
            && (!now.final && current < |nodes| - 1 ==>
                  !there[current + 1].complete
                  && Sound(there[current + 1 := there[current + 1].(ready := true)], current + 1, out, forceEof, eof, late, skips))
  {
    hide Kept;
    var there := nodes[current := now];
    assert forall i: nat :: i < |nodes| ==> NodeRight(nodes[i], i - current, i in skips, i == |nodes| - 1);
    KeptSame(nodes, there, skips, current);
    if !now.final && current < |nodes| - 1 {
      var next := there[current + 1 := there[current + 1].(ready := true)];
      KeptSame(nodes, next, skips, current + 1);
      KeptNext(nodes, skips, current);
      assert now.stream[..now.taken] == now.stream && next[current + 1].stream[..0] == [];
      assert out + [] == out;
    }
  }

  lemma AddSound(nodes: seq<Node>, current: int, out: seq<Byte>, forceEof: bool, eof: bool, late: bool, skips: set<nat>,
                 n: Node, running: bool, now: bool)
    requires -1 <= current < |nodes| && Sound(nodes, current, out, forceEof, eof, late, skips)
    requires n.taken == 0 && !n.complete && (current >= 0 ==> running) && (running && nodes != [] ==> current >= 0)
    requires now == (late || forceEof || (nodes != [] && nodes[|nodes| - 1].final))
    ensures var more, go := nodes + [n], running && (current < 0 || nodes[current].complete);
            && (!go ==> Sound(more, current, out, forceEof, eof, now, skips))
            && (go ==> Sound(more[|nodes| := n.(ready := true)], |nodes|, out, forceEof, eof, now, Left(skips, current, |nodes|)))
  {
    hide Kept, Left;
    var more, k := nodes + [n], |nodes|;
    assert forall i: nat :: i < k ==> NodeRight(nodes[i], i - current, i in skips, i == k - 1);
    if current >= 0 && nodes[current].complete {
      AddBehind(nodes, current, skips, n);
    } else if current >= 0 {
      KeptSame(nodes, more, skips, current);
    } else {
      NothingKept(more[k := n.(ready := true)], skips);
    }
    assert n.stream[..0] == [];
  }

  /** Behind a complete node everything passed on was kept. */
  lemma AddBehind(nodes: seq<Node>, current: nat, skips: set<nat>, n: Node)
    requires current < |nodes| && (forall i :: i in skips ==> i < current)
    requires nodes[current].taken == |nodes[current].stream|
    ensures var started := (nodes + [n])[|nodes| := n.(ready := true)];
            Kept(nodes, skips, current) + nodes[current].stream[..nodes[current].taken]
            == Kept(started, Left(skips, current, |nodes|), |nodes|) + []
  {
    var k := |nodes|;
    var started, left := (nodes + [n])[k := n.(ready := true)], Left(skips, current, k);
    KeptSame(nodes, started, skips, current + 1);
    KeptSkip(started, skips, left, current + 1, k);
    assert nodes[current].stream[..nodes[current].taken] == nodes[current].stream;
  }

  // ---------------------------------------------------------------- order

  /** What has been passed on is always a prefix of the streams of the nodes that were not skipped, in the
      order in which they were added. A node is skipped only by one added behind it when the current
      one is complete. So without skips it is a prefix of all streams, also if nodes were added
      late; and unless any were, it is all of them once the end has been passed on. */
  lemma OutIsPrefix(s: Streamer)
    requires s.Valid()
    ensures s.out <= Kept(s.nodes, s.skips, |s.nodes|)
    ensures s.skips == {} ==> s.out <= Streams(s.nodes, |s.nodes|)
    ensures !s.late ==> s.skips == {} && (s.eof ==> s.out == Streams(s.nodes, |s.nodes|) && s.Closed())
  {
    hide Kept, Streams;
    var nodes, current, skips := s.nodes, s.current, s.skips;
    if s.skips == {} { KeptAll(nodes, skips, |nodes|); }
    if 0 <= current {
      assert NodeRight(nodes[current], 0, current in skips, current == |nodes| - 1);
      KeptPart(nodes, skips, current, nodes[current].taken);
    }
    NothingKept(nodes, skips);
    if nodes != [] { assert NodeRight(nodes[|nodes| - 1], |nodes| - 1 - current, |nodes| - 1 in skips, true); }
  }

  lemma KeptPart(nodes: seq<Node>, skips: set<nat>, current: nat, taken: nat)
    requires current < |nodes| && current !in skips && taken <= |nodes[current].stream|
    ensures var part := Kept(nodes, skips, current) + nodes[current].stream[..taken];
            && part <= Kept(nodes, skips, |nodes|)
            && (taken == |nodes[current].stream| && current == |nodes| - 1 ==> part == Kept(nodes, skips, |nodes|))
  {
    var n := nodes[current];
    KeptPrefix(nodes, skips, current + 1, |nodes|);
    assert n.stream[..taken] <= n.stream;
    assert taken == |n.stream| ==> n.stream[..taken] == n.stream;
  }

  lemma NothingKept(nodes: seq<Node>, skips: set<nat>)
    ensures Kept(nodes, skips, 0) == []
  {
  }

  /** Where the nodes from `i` up to the current one are skipped, and none before: the order is kept exactly
      as long as what has been passed on of the current node begins like the streams from node `i`
      on. */
  lemma SkipKeepsOrder(s: Streamer, i: nat)
    requires s.Valid() && i < s.current && forall k :: k in s.skips <==> i <= k < s.current
    ensures var n := s.nodes[s.current];
            s.out <= Streams(s.nodes, |s.nodes|) <==> n.stream[..n.taken] <= Streams(s.nodes[i..], |s.nodes| - i)
  {
    hide Kept, Streams;
    var nodes, current := s.nodes, s.current;
    var part := nodes[current].stream[..nodes[current].taken];
    KeptGap(nodes, s.skips, i, current);
    StreamsSplit(nodes, i, |nodes|);
    PrefixBehind(Streams(nodes, i), part, Streams(nodes[i..], |nodes| - i));
  }

  lemma KeptGap(nodes: seq<Node>, skips: set<nat>, i: nat, n: nat)
    requires i <= n <= |nodes| && forall k :: k in skips <==> i <= k < n
    ensures Kept(nodes, skips, n) == Streams(nodes, i)
  {
    var none: set<nat> := {};
    KeptSkip(nodes, none, skips, i, n);
    KeptAll(nodes, none, i);
  }

  lemma PrefixBehind(before: seq<Byte>, part: seq<Byte>, behind: seq<Byte>)
    ensures before + part <= before + behind <==> part <= behind
  {
    if before + part <= before + behind {
      assert part == (before + behind)[|before|..|before + part|] == behind[..|part|];
    }
  }
}
