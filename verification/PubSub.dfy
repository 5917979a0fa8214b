/** Publishers, subscribers and the messages between them in the loop's queue. */
module PubSub {
  import opened Sequences

  /** A queued message: which event object carries it, the subscriber it is for, and its data. */
  datatype Event = Event(id: nat, sub: nat, data: int)

  /** A subscriber while it is subscribed: its publisher and the chain of its pending events; and
      what has been published to it and delivered to it since it subscribed. */
  datatype Sub = Sub(pub: nat, pending: seq<Event>, published: seq<int>, delivered: seq<int>)

  /** The events of a queue that are for `s`, in order. */
  ghost function For(queue: seq<Event>, s: nat): (r: seq<Event>)
    decreases |queue|
  {
    if queue == [] then [] else Mine(queue[0], s) + For(queue[1..], s)
  }

  ghost function Mine(e: Event, s: nat): (r: seq<Event>) {
    if e.sub == s then [e] else []
  }

  /** The events that are for others, in order. */
  ghost function Others(queue: seq<Event>, s: nat): (r: seq<Event>)
    decreases |queue|
  {
    if queue == [] then [] else (if queue[0].sub == s then [] else [queue[0]]) + Others(queue[1..], s)
  }

  lemma {:induction false} OthersWithout(queue: seq<Event>, k: nat, s: nat)
    requires k < |queue| && queue[k].sub == s
    ensures Others(Without(queue, k), s) == Others(queue, s)
    decreases |queue|
  {
    var q := Without(queue, k);
    if k == 0 {
      assert q == queue[1..];
    } else {
      assert q[0] == queue[0] && q[1..] == Without(queue[1..], k - 1);
      OthersWithout(queue[1..], k - 1, s);
    }
  }

  lemma {:induction false} AllOthers(queue: seq<Event>, s: nat)
    requires For(queue, s) == []
    ensures Others(queue, s) == queue
    decreases |queue|
  {
    if queue != [] {
      assert Mine(queue[0], s) == [] && For(queue[1..], s) == [];
      AllOthers(queue[1..], s);
      assert [queue[0]] + queue[1..] == queue;
    }
  }

  lemma {:induction false} ForConcat(q: seq<Event>, r: seq<Event>, s: nat)
    ensures For(q + r, s) == For(q, s) + For(r, s)
    decreases |q|
  {
    hide Mine;
    if q == [] {
      assert q + r == r;
    } else {
      assert (q + r)[1..] == q[1..] + r;
      ForConcat(q[1..], r, s);
      Assoc(Mine(q[0], s), For(q[1..], s), For(r, s));
    }
  }

  lemma ForOne(e: Event, s: nat)
    ensures For([e], s) == Mine(e, s)
  {
    assert [e][1..] == [];
  }

  ghost function Data(es: seq<Event>): (r: seq<int>) {
    seq(|es|, i requires 0 <= i < |es| => es[i].data)
  }

  lemma DataParts(a: seq<Event>, b: seq<Event>)
    ensures Data(a + b) == Data(a) + Data(b)
  {
  }

  ghost predicate DistinctIds(q: seq<Event>) {
    forall i, j :: 0 <= i < j < |q| ==> q[i].id != q[j].id
  }

  ghost function Ids(q: seq<Event>): (r: set<nat>) {
    set e | e in q :: e.id
  }

  lemma ForSplit(q: seq<Event>, k: nat, s: nat)
    requires k < |q| && DistinctIds(q)
    ensures For(q, s) == For(q[..k], s) + Mine(q[k], s) + For(q[k + 1..], s)
    ensures For(Without(q, k), s) == For(q[..k], s) + For(q[k + 1..], s)
    ensures q[k] !in For(q[..k], s)
  {
    var e, rest := q[k], q[k + 1..];
    ForOne(e, s);
    ForMembers(q[..k], s);
    assert q == q[..k] + ([e] + rest);
    hide For, Mine;
    ForConcat(q[..k], [e] + rest, s);
    ForConcat([e], rest, s);
    ForConcat(q[..k], rest, s);
    Assoc(For(q[..k], s), Mine(e, s), For(rest, s));
  }

  /** Unlinking the first event for `s` leaves its chain one shorter, and the others alone. */
  lemma ForWithout(q: seq<Event>, k: nat, s: nat)
    requires k < |q| && DistinctIds(q)
    ensures q[k].sub != s ==> For(Without(q, k), s) == For(q, s)
    ensures q[k].sub == s && For(q, s) != [] && For(q, s)[0] == q[k] ==> For(Without(q, k), s) == For(q, s)[1..]
  {
    hide For, Without, DistinctIds;
    ForSplit(q, k, s);
    DropOne(For(q[..k], s), q[k], For(q[k + 1..], s));
  }

  lemma DropOne(a: seq<Event>, e: Event, b: seq<Event>)
    requires e !in a
    ensures (a + [e] + b)[0] == e ==> a + b == (a + [e] + b)[1..]
    ensures a + [] + b == a + b
  {
    if a != [] {
      assert (a + [e] + b)[0] == a[0] && a[0] in a;
    } else {
      assert a + [e] + b == [e] + b && a + b == b;
    }
  }

  lemma ForTail(q: seq<Event>, s: nat)
    requires q != []
    ensures if q[0].sub == s then For(q, s) == [q[0]] + For(q[1..], s) && For(q, s)[1..] == For(q[1..], s)
            else For(q[1..], s) == For(q, s)
  {
    assert [] + For(q[1..], s) == For(q[1..], s);
  }

  lemma {:induction false} ForMembers(q: seq<Event>, s: nat)
    ensures forall e :: e in For(q, s) <==> e in q && e.sub == s
    decreases |q|
  {
    if q != [] {
      ForMembers(q[1..], s);
      assert q == [q[0]] + q[1..];
    }
  }

  lemma WithoutIds(q: seq<Event>, k: nat)
    requires k < |q| && DistinctIds(q)
    ensures DistinctIds(Without(q, k)) && Ids(Without(q, k)) == Ids(q) - {q[k].id}
    ensures forall e :: e in Without(q, k) ==> e in q
  {
    var w := Without(q, k);
    assert forall i :: 0 <= i < |w| ==> w[i] == q[if i < k then i else i + 1];
    forall e | e in q && e.id != q[k].id ensures e in w {
      var i :| 0 <= i < |q| && q[i] == e;
      assert w[if i < k then i else i - 1] == e;
    }
  }

  // ---------------------------------------------------------------- what the loop keeps

  /** A subscriber's chain is the part of the queue addressed to it; nothing is queued for one that
      is not subscribed. */
  ghost predicate Matches(queue: seq<Event>, subs: map<nat, Sub>) {
    && (forall s :: s in subs ==> subs[s].pending == For(queue, s))
    && (forall e :: e in queue ==> e.sub in subs)
  }

  /** Messages arrive once and in the order of publication. */
  ghost predicate InOrder(sub: Sub) {
    sub.published == sub.delivered + Data(sub.pending)
  }

  ghost predicate AllInOrder(subs: map<nat, Sub>) {
    forall s :: s in subs ==> InOrder(subs[s])
  }

  /** The publishers' lists and the subscribers' publishers agree. */
  ghost predicate Listed(lists: map<nat, seq<nat>>, subs: map<nat, Sub>) {
    && (forall p :: p in lists ==> NoDuplicates(lists[p]) && ListedFor(lists[p], p, subs))
    && (forall s :: s in subs ==> subs[s].pub in lists && s in lists[subs[s].pub])
  }

  ghost predicate ListedFor(list: seq<nat>, p: nat, subs: map<nat, Sub>) {
    forall s :: s in list ==> s in subs && subs[s].pub == p
  }

  /** Event objects: those of the queue and the one being delivered are allocated, and no others. */
  ghost predicate Allocated(queue: seq<Event>, current: set<nat>, live: set<nat>, next: nat) {
    && DistinctIds(queue) && Ids(queue) !! current && live == Ids(queue) + current
    && forall id :: id in live ==> id < next
  }

  lemma EnqueueKeeps(queue: seq<Event>, subs: map<nat, Sub>, e: Event)
    requires Matches(queue, subs) && AllInOrder(subs) && e.sub in subs
    ensures var sub := subs[e.sub];
            var now := subs[e.sub := sub.(pending := sub.pending + [e], published := sub.published + [e.data])];
            Matches(queue + [e], now) && AllInOrder(now)
  {
    var sub := subs[e.sub];
    var now := subs[e.sub := sub.(pending := sub.pending + [e], published := sub.published + [e.data])];
    forall s | s in now ensures now[s].pending == For(queue + [e], s) && InOrder(now[s]) {
      ForConcat(queue, [e], s);
      ForOne(e, s);
      if s == e.sub {
        assert InOrder(sub);
        DataParts(sub.pending, [e]);
        assert sub.delivered + Data(sub.pending) + [e.data] == sub.delivered + (Data(sub.pending) + [e.data]);
      } else {
        assert InOrder(subs[s]);
      }
    }
  }

  lemma EnqueueAllocates(queue: seq<Event>, current: set<nat>, live: set<nat>, next: nat, e: Event)
    requires Allocated(queue, current, live, next) && e.id == next
    ensures Allocated(queue + [e], current, live + {next}, next + 1)
  {
    assert Ids(queue + [e]) == Ids(queue) + {next};
  }

  lemma ListedSame(lists: map<nat, seq<nat>>, subs: map<nat, Sub>, now: map<nat, Sub>)
    requires Listed(lists, subs) && now.Keys == subs.Keys && forall s :: s in subs ==> now[s].pub == subs[s].pub
    ensures Listed(lists, now)
  {
  }

  function Next(sub: Sub): (r: Sub)
    requires sub.pending != []
  {
    sub.(pending := sub.pending[1..], delivered := sub.delivered + [sub.pending[0].data])
  }

  lemma NextInOrder(sub: Sub)
    requires InOrder(sub) && sub.pending != []
    ensures InOrder(Next(sub))
  {
    var e, rest := sub.pending[0], sub.pending[1..];
    assert sub.pending == [e] + rest;
    DataParts([e], rest);
    assert Data([e]) == [e.data];
    assert sub.delivered + ([e.data] + Data(rest)) == sub.delivered + [e.data] + Data(rest);
  }

  /** The head of the queue is the head of its subscriber's chain. */
  lemma HeadIsPending(queue: seq<Event>, subs: map<nat, Sub>)
    requires Matches(queue, subs) && queue != []
    ensures var s := queue[0].sub;
            && s in subs && subs[s].pending != [] && subs[s].pending[0] == queue[0]
            && Matches(queue[1..], subs[s := Next(subs[s])])
  {
    hide For;
    var s := queue[0].sub;
    assert queue[0] in queue;
    ForTail(queue, s);
    forall t | t in subs && t != s ensures For(queue[1..], t) == For(queue, t) { ForTail(queue, t); }
  }

  lemma AllNext(subs: map<nat, Sub>, s: nat)
    requires AllInOrder(subs) && s in subs && subs[s].pending != []
    ensures AllInOrder(subs[s := Next(subs[s])])
  {
    hide InOrder, Next;
    NextInOrder(subs[s]);
  }

  lemma HeadLeaves(queue: seq<Event>, current: set<nat>, live: set<nat>, next: nat)
    requires Allocated(queue, current, live, next) && queue != []
    ensures Allocated(queue[1..], current + {queue[0].id}, live, next)
  {
    WithoutIds(queue, 0);
    assert Without(queue, 0) == queue[1..];
    assert queue[0] in queue;
  }

  class Loop {
    var queue: seq<Event>
    var subs: map<nat, Sub>
    /** The list of each publisher, the latest subscriber first. */
    var lists: map<nat, seq<nat>>
    /** Event objects that are in use; each allocation is given a new number. */
    var live: set<nat>
    var next: nat
    ghost var current: set<nat>

    ghost predicate Valid()
      reads this
    {
      && Matches(queue, subs) && AllInOrder(subs) && Listed(lists, subs)
      && Allocated(queue, current, live, next)
    }

    constructor ()
      ensures Valid() && queue == [] && subs == map[]
    {
      queue, subs, lists, live, next, current := [], map[], map[], {}, 0, {};
    }

    /** The part of `nxe_publish` for one subscriber. */
    method Enqueue(s: nat, data: int)
      requires Valid() && s in subs
      modifies this`queue, this`subs, this`live, this`next
      ensures Valid() && subs.Keys == old(subs).Keys
      ensures |queue| == |old(queue)| + 1 && queue[..|old(queue)|] == old(queue)
      ensures queue[|old(queue)|].sub == s && queue[|old(queue)|].data == data
      ensures forall t :: t in subs ==> Heard(old(subs)[t], subs[t], if t == s then [data] else [])
    {
      hide Matches, AllInOrder, Listed, Allocated;
      var e := Event(next, s, data);
      EnqueueKeeps(queue, subs, e);
      EnqueueAllocates(queue, current, live, next, e);
      ghost var was := subs;
      live, next := live + {next}, next + 1;
      queue := queue + [e];
      subs := subs[s := subs[s].(pending := subs[s].pending + [e], published := subs[s].published + [data])];
      ListedSame(lists, was, subs);
    }

    /** `nxe_publish`: every subscriber of `p` is sent the data once. */
    method Publish(p: nat, data: int)
      requires Valid()
      modifies this`queue, this`subs, this`live, this`next
      ensures Valid() && subs.Keys == old(subs).Keys && old(queue) <= queue
      ensures forall t :: t in subs ==> Heard(old(subs)[t], subs[t], if old(subs)[t].pub == p then [data] else [])
    {
      hide Matches, AllInOrder, Listed, Allocated, Informed, Heard;
      NobodyInformed(subs, data);
      if p !in lists {
        InformedAll(lists, old(subs), p, subs, data);
        return;
      }
      var list := lists[p];
      ListedMembers(lists, subs, p);
      for k := 0 to |list|
        invariant Valid() && subs.Keys == old(subs).Keys && old(queue) <= queue && Informed(old(subs), subs, list[..k], data)
      {
        ghost var mid := subs;
        Enqueue(list[k], data);
        InformedStep(old(subs), mid, subs, list, k, data);
      }
      assert list[..|list|] == list;
      InformedAll(lists, old(subs), p, subs, data);
    }

    /** `nxe_subscribe`; that `s` is not subscribed is the assertion it makes. */
    method Subscribe(p: nat, s: nat)
      requires Valid() && s !in subs
      modifies this`subs, this`lists
      ensures Valid() && subs == old(subs)[s := Sub(p, [], [], [])]
    {
      hide Matches, AllInOrder, Listed, Allocated;
      SubscribeKeeps(queue, subs, lists, p, s);
      lists := lists[p := [s] + if p in lists then lists[p] else []];
      subs := subs[s := Sub(p, [], [], [])];
    }

    /** `nxe_unsubscribe`; that `s` is subscribed to `p` is the assertion it makes.  Its pending events
        are unlinked and freed. */
    method Unsubscribe(p: nat, s: nat)
      requires Valid() && s in subs && subs[s].pub == p
      modifies this`subs, this`lists, this`queue, this`live
      ensures Valid() && subs == old(subs) - {s} && queue == Others(old(queue), s)
      ensures forall e :: e in queue ==> e.sub != s
    {
      hide Matches, AllInOrder, Listed, Allocated;
      SubList(lists, subs, s);
      var k := Place(lists[p], s);
      UnlistKeeps(lists, subs, s, k);
      lists := lists[p := lists[p][..k] + lists[p][k + 1..]];
      FreePending(s);
      UnsubscribeKeeps(old(queue), queue, subs, s);
      subs := subs - {s};
    }

    /** The loop of `nxe_unsubscribe` over the pending events of `s`. */
    method FreePending(s: nat)
      requires Matches(queue, subs) && Allocated(queue, current, live, next) && s in subs
      modifies this`queue, this`live
      ensures Allocated(queue, current, live, next) && Fewer(old(queue), queue, s) && For(queue, s) == []
      ensures queue == Others(old(queue), s)
    {
      hide Matches, Allocated, Fewer, For, Others;
      var pending := subs[s].pending;
      PendingOf(queue, subs, s);
      FewerRefl(queue, s);
      while pending != []
        invariant Allocated(queue, current, live, next) && Fewer(old(queue), queue, s) && For(queue, s) == pending
      {
        var e := pending[0];
        HeadQueued(queue, s);
        var k := Find(queue, e);
        UnlinkKeeps(old(queue), queue, current, live, next, s, k);
        queue := Without(queue, k);
        assert e.id in live;
        live := live - {e.id};
        pending := pending[1..];
      }
      FewerOthers(old(queue), queue, s);
    }

    /** `nxe_process_loop` and `message_event_deliver` up to the callback: the first event is unlinked
        and handed over; it is the head of its subscriber's chain, as the delivery asserts. */
    method Deliver() returns (e: Event)
      requires Valid() && queue != []
      modifies this`queue, this`subs, this`current
      ensures Valid() && e == old(queue)[0] && queue == old(queue)[1..] && current == old(current) + {e.id}
      ensures e.sub in old(subs) && old(subs)[e.sub].pending != [] && old(subs)[e.sub].pending[0] == e
      ensures subs.Keys == old(subs).Keys && subs[e.sub].delivered == old(subs)[e.sub].delivered + [e.data]
      ensures subs[e.sub].pub == old(subs)[e.sub].pub && subs[e.sub].published == old(subs)[e.sub].published
      ensures forall t :: t in subs && t != e.sub ==> subs[t] == old(subs)[t]
    {
      hide Matches, AllInOrder, Listed, Allocated;
      e := queue[0];
      HeadIsPending(queue, subs);
      AllNext(subs, e.sub);
      HeadLeaves(queue, current, live, next);
      queue := queue[1..];
      current := current + {e.id};
      assert subs[e.sub].pending[0] == e;
      ghost var was := subs;
      subs := subs[e.sub := Next(subs[e.sub])];
      ListedSame(lists, was, subs);
    }

    /** What a callback may do: it publishes, subscribes and unsubscribes, also the subscriber it was
        called for. */
    method Callback()
      requires Valid()
      modifies this`queue, this`subs, this`lists, this`live, this`next
      ensures Valid()
    {
      hide Matches, AllInOrder, Listed, Allocated;
      var n: nat :| n >= 0;
      for k := 0 to n
        invariant Valid()
      {
        var p: nat, s: nat, data: int :| p >= 0 && s >= 0;
        if data == 0 && s in subs {
          Unsubscribe(subs[s].pub, s);
        } else if data == 1 && s !in subs {
          Subscribe(p, s);
        } else {
          Publish(p, data);
        }
      }
    }

    /** One round of `nxe_process_loop`: an event is freed once, after its delivery. */
    method ProcessOne() returns (e: Event)
      requires Valid() && queue != [] && current == {}
      modifies this
      ensures Valid() && current == {} && e == old(queue)[0]
      ensures e.id in old(live) && e.id !in live
    {
      hide Matches, AllInOrder, Listed, Allocated;
      HeadLive(queue, current, live, next);
      e := Deliver();
      Callback();
      FreedOnce(queue, current, live, next, e.id);
      assert e.id in live;
      live := live - {e.id};
      current := current - {e.id};
    }
  }

  lemma HeadLive(queue: seq<Event>, current: set<nat>, live: set<nat>, next: nat)
    requires Allocated(queue, current, live, next) && queue != []
    ensures queue[0].id in live
  {
    assert queue[0] in queue;
  }

  lemma FreedOnce(queue: seq<Event>, current: set<nat>, live: set<nat>, next: nat, id: nat)
    requires Allocated(queue, current, live, next) && id in current
    ensures id in live && Allocated(queue, current - {id}, live - {id}, next)
  {
  }

  lemma SubscribeKeeps(queue: seq<Event>, subs: map<nat, Sub>, lists: map<nat, seq<nat>>, p: nat, s: nat)
    requires Matches(queue, subs) && AllInOrder(subs) && Listed(lists, subs) && s !in subs
    ensures var now := subs[s := Sub(p, [], [], [])];
            && Matches(queue, now) && AllInOrder(now)
            && Listed(lists[p := [s] + if p in lists then lists[p] else []], now)
  {
    hide Listed;
    var now := subs[s := Sub(p, [], [], [])];
    ForMembers(queue, s);
    assert For(queue, s) == [] by { assert For(queue, s) != [] ==> For(queue, s)[0] in For(queue, s); }
    assert InOrder(now[s]) by { assert [] + Data([]) == []; }
    SubscribeListed(subs, lists, p, s);
  }

  lemma SubscribeListed(subs: map<nat, Sub>, lists: map<nat, seq<nat>>, p: nat, s: nat)
    requires Listed(lists, subs) && s !in subs
    ensures Listed(lists[p := [s] + if p in lists then lists[p] else []], subs[s := Sub(p, [], [], [])])
  {
    var now := subs[s := Sub(p, [], [], [])];
    var list := if p in lists then lists[p] else [];
    assert p in lists ==> ListedFor(lists[p], p, subs);
    var there := lists[p := [s] + list];
    forall q | q in there ensures NoDuplicates(there[q]) && ListedFor(there[q], q, now) {
      if q != p { assert ListedFor(lists[q], q, subs); }
    }
  }

  lemma SubList(lists: map<nat, seq<nat>>, subs: map<nat, Sub>, s: nat)
    requires Listed(lists, subs) && s in subs
    ensures subs[s].pub in lists && s in lists[subs[s].pub]
  {
  }

  method Place(list: seq<nat>, s: nat) returns (k: nat)
    requires s in list
    ensures k < |list| && list[k] == s
  {
    k := 0;
    while list[k] != s
      invariant k < |list| && s !in list[..k]
      decreases |list| - k
    {
      assert s in list[..k] + [list[k]] + list[k + 1..] by { assert list == list[..k] + [list[k]] + list[k + 1..]; }
      k := k + 1;
    }
  }

  lemma UnlistKeeps(lists: map<nat, seq<nat>>, subs: map<nat, Sub>, s: nat, k: nat)
    requires Listed(lists, subs) && s in subs && k < |lists[subs[s].pub]| && lists[subs[s].pub][k] == s
    ensures var p := subs[s].pub;
            Listed(lists[p := lists[p][..k] + lists[p][k + 1..]], subs - {s})
  {
    var p := subs[s].pub;
    var list := lists[p];
    var less := list[..k] + list[k + 1..];
    assert ListedFor(list, p, subs) && NoDuplicates(list);
    assert forall i :: 0 <= i < |less| ==> less[i] == list[if i < k then i else i + 1];
    forall t | t in list && t != s ensures t in less {
      var i :| 0 <= i < |list| && list[i] == t;
      assert less[if i < k then i else i - 1] == t;
    }
    var there, now := lists[p := less], subs - {s};
    forall q | q in there ensures NoDuplicates(there[q]) && ListedFor(there[q], q, now) {
      if q != p { assert ListedFor(lists[q], q, subs); }
    }
  }

  /** `now` is `was` without some events for `s`. */
  ghost predicate Fewer(was: seq<Event>, now: seq<Event>, s: nat) {
    && (forall t :: t != s ==> For(now, t) == For(was, t))
    && (forall e :: e in now ==> e in was) && Others(now, s) == Others(was, s)
  }

  lemma FewerOthers(was: seq<Event>, now: seq<Event>, s: nat)
    requires Fewer(was, now, s) && For(now, s) == []
    ensures now == Others(was, s)
  {
    AllOthers(now, s);
  }

  lemma FewerRefl(q: seq<Event>, s: nat)
    ensures Fewer(q, q, s)
  {
  }

  lemma PendingOf(queue: seq<Event>, subs: map<nat, Sub>, s: nat)
    requires Matches(queue, subs) && s in subs
    ensures subs[s].pending == For(queue, s)
  {
  }

  lemma HeadQueued(queue: seq<Event>, s: nat)
    requires For(queue, s) != []
    ensures For(queue, s)[0] in queue && For(queue, s)[0].sub == s
  {
    ForMembers(queue, s);
    assert For(queue, s)[0] in For(queue, s);
  }

  method Find(queue: seq<Event>, e: Event) returns (k: nat)
    requires e in queue
    ensures k < |queue| && queue[k] == e
  {
    k := 0;
    while queue[k] != e
      invariant k < |queue| && e !in queue[..k]
      decreases |queue| - k
    {
      assert queue == queue[..k] + [queue[k]] + queue[k + 1..];
      k := k + 1;
    }
  }

  lemma UnlinkKeeps(was: seq<Event>, queue: seq<Event>, current: set<nat>, live: set<nat>, next: nat, s: nat, k: nat)
    requires Allocated(queue, current, live, next) && Fewer(was, queue, s) && k < |queue|
    requires queue[k].sub == s && For(queue, s) != [] && For(queue, s)[0] == queue[k]
    ensures queue[k].id in live && Allocated(Without(queue, k), current, live - {queue[k].id}, next)
    ensures Fewer(was, Without(queue, k), s) && For(Without(queue, k), s) == For(queue, s)[1..]
  {
    hide Without;
    OthersWithout(queue, k, s);
    WithoutIds(queue, k);
    assert queue[k] in queue;
    forall t ensures t != s ==> For(Without(queue, k), t) == For(queue, t) { ForWithout(queue, k, t); }
    ForWithout(queue, k, s);
  }

  lemma UnsubscribeKeeps(was: seq<Event>, queue: seq<Event>, subs: map<nat, Sub>, s: nat)
    requires Matches(was, subs) && AllInOrder(subs) && Fewer(was, queue, s) && For(queue, s) == []
    ensures Matches(queue, subs - {s}) && AllInOrder(subs - {s})
    ensures forall e :: e in queue ==> e.sub != s
  {
    ForMembers(queue, s);
  }

  /** What a subscriber has been sent grows by `more`; nothing else changes but its chain. */
  ghost predicate Heard(was: Sub, now: Sub, more: seq<int>) {
    now.pub == was.pub && now.published == was.published + more && now.delivered == was.delivered
  }

  ghost predicate Informed(was: map<nat, Sub>, now: map<nat, Sub>, who: seq<nat>, data: int) {
    now.Keys == was.Keys && forall t :: t in now ==> Heard(was[t], now[t], if t in who then [data] else [])
  }

  lemma NobodyInformed(subs: map<nat, Sub>, data: int)
    ensures Informed(subs, subs, [], data)
  {
    assert forall s: seq<int> :: s + [] == s;
  }

  lemma InformedStep(was: map<nat, Sub>, mid: map<nat, Sub>, now: map<nat, Sub>, list: seq<nat>, k: nat, data: int)
    requires k < |list| && NoDuplicates(list) && Informed(was, mid, list[..k], data)
    requires now.Keys == mid.Keys && forall t :: t in now ==> Heard(mid[t], now[t], if t == list[k] then [data] else [])
    ensures Informed(was, now, list[..k + 1], data)
  {
    assert list[..k + 1] == list[..k] + [list[k]];
    forall t | t in now ensures Heard(was[t], now[t], if t in list[..k + 1] then [data] else []) {
      assert Heard(was[t], mid[t], if t in list[..k] then [data] else []);
      assert mid[t].published + [] == mid[t].published && was[t].published + [] == was[t].published;
    }
  }

  lemma ListedMembers(lists: map<nat, seq<nat>>, subs: map<nat, Sub>, p: nat)
    requires Listed(lists, subs) && p in lists
    ensures NoDuplicates(lists[p]) && forall t :: t in lists[p] <==> t in subs && subs[t].pub == p
  {
    assert ListedFor(lists[p], p, subs);
  }

  lemma InformedAll(lists: map<nat, seq<nat>>, was: map<nat, Sub>, p: nat, now: map<nat, Sub>, data: int)
    requires Listed(lists, was) && Informed(was, now, if p in lists then lists[p] else [], data)
    ensures forall t :: t in now ==> Heard(was[t], now[t], if was[t].pub == p then [data] else [])
  {
    hide Heard;
    if p in lists { ListedMembers(lists, was, p); }
  }
}
