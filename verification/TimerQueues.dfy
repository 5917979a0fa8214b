/** The loop's timer queues: one queue for each timeout, so that appending keeps them sorted. */
module TimerQueues {
  import opened Sequences

  /** Timers go off up to a quarter of a second early; times are in microseconds. */
  const SLACK := 250000

  const WORD := 0x1_0000_0000_0000_0000

  /** An armed timer and its `abs_time`. */
  datatype Timer = Timer(id: nat, due: nat)

  /** The unsigned 64-bit comparison in `nxe_process_timers`. */
  predicate Due(t: Timer, now: nat) {
    (t.due - SLACK) % WORD <= now
  }

  /** A timer that has just been set is due exactly if its timeout is within the slack (and the
      subtraction does not wrap): a callback that sets such a timer again would run for ever. */
  lemma FreshTimerDue(id: nat, now: nat, timeout: nat)
    requires now + timeout < WORD && (timeout <= SLACK ==> now < WORD - SLACK)
    ensures Due(Timer(id, now + timeout), now) <==> timeout <= 250_000 <= now + timeout
  {
    if now + timeout < SLACK {
      assert (now + timeout - SLACK) % WORD == now + timeout - SLACK + WORD;
    }
  }

  ghost predicate Sorted(q: seq<Timer>) {
    forall i, j :: 0 <= i < j < |q| ==> q[i].due <= q[j].due
  }

  ghost predicate Distinct(q: seq<Timer>) {
    forall i, j :: 0 <= i < j < |q| ==> q[i].id != q[j].id
  }

  /** A queue is sorted, and nothing in it lies further ahead than its timeout. */
  ghost predicate QueueRight(q: seq<Timer>, timeout: nat, now: nat) {
    && Sorted(q) && Distinct(q)
    && forall t :: t in q ==> timeout <= t.due <= now + timeout
  }

  /** The armed timers and the queue each of them is in. */
  ghost predicate Located(q: seq<Timer>, i: nat, where: map<nat, nat>) {
    && (forall t :: t in q ==> t.id in where && where[t.id] == i)
    && (forall id :: id in where && where[id] == i ==> HasId(q, id))
  }

  ghost predicate HasId(q: seq<Timer>, id: nat) {
    exists t :: t in q && t.id == id
  }

  /** What is at a place once the timer at `k` has gone. */
  function Skip(k: nat, i: nat): (r: nat) {
    if i < k then i else i + 1
  }

  lemma WithoutAt(q: seq<Timer>, k: nat)
    requires k < |q|
    ensures |Without(q, k)| == |q| - 1
    ensures forall i :: 0 <= i < |q| - 1 ==> Without(q, k)[i] == q[Skip(k, i)]
  {
  }

  lemma WithoutOrder(q: seq<Timer>, k: nat)
    requires k < |q| && Sorted(q) && Distinct(q)
    ensures Sorted(Without(q, k)) && Distinct(Without(q, k))
  {
    WithoutAt(q, k);
    hide Without;
  }

  lemma WithoutMembers(q: seq<Timer>, k: nat)
    requires k < |q| && Distinct(q)
    ensures forall t :: t in Without(q, k) <==> t in q && t.id != q[k].id
  {
    var w := Without(q, k);
    WithoutAt(q, k);
    forall t | t in q && t.id != q[k].id ensures t in w {
      var i :| 0 <= i < |q| && q[i] == t;
      assert w[if i < k then i else i - 1] == t;
    }
  }

  lemma WithoutRight(q: seq<Timer>, k: nat, timeout: nat, now: nat)
    requires k < |q| && QueueRight(q, timeout, now)
    ensures QueueRight(Without(q, k), timeout, now)
    ensures forall t :: t in Without(q, k) <==> t in q && t.id != q[k].id
  {
    hide Without, Sorted, Distinct;
    WithoutOrder(q, k);
    WithoutMembers(q, k);
  }

  lemma AppendRight(q: seq<Timer>, t: Timer, timeout: nat, now: nat)
    requires QueueRight(q, timeout, now) && t.due == now + timeout && !HasId(q, t.id)
    ensures QueueRight(q + [t], timeout, now)
  {
  }

  ghost predicate AllRight(queues: seq<seq<Timer>>, timeouts: seq<nat>, now: nat) {
    |queues| == |timeouts| && forall i :: 0 <= i < |queues| ==> QueueRight(queues[i], timeouts[i], now)
  }

  ghost predicate AllLocated(queues: seq<seq<Timer>>, where: map<nat, nat>) {
    && (forall i :: 0 <= i < |queues| ==> Located(queues[i], i, where))
    && (forall id :: id in where ==> where[id] < |queues|)
  }

  lemma SetRight(queues: seq<seq<Timer>>, timeouts: seq<nat>, now: nat, i: nat, q: seq<Timer>)
    requires AllRight(queues, timeouts, now) && i < |queues| && QueueRight(q, timeouts[i], now)
    ensures AllRight(queues[i := q], timeouts, now)
  {
    hide QueueRight;
  }

  lemma SetLocated(queues: seq<seq<Timer>>, where: map<nat, nat>, id: nat, i: nat, t: Timer)
    requires AllLocated(queues, where) && i < |queues| && id !in where && t.id == id
    ensures !HasId(queues[i], id)
    ensures AllLocated(queues[i := queues[i] + [t]], where[id := i])
  {
    assert Located(queues[i], i, where);
    var now, there := queues[i := queues[i] + [t]], where[id := i];
    forall j | 0 <= j < |now| ensures Located(now[j], j, there) {
      assert Located(queues[j], j, where);
      forall x | x in there && there[x] == j ensures HasId(now[j], x) {
        if x == id { assert t in now[j]; } else {
          var u :| u in queues[j] && u.id == x;
          assert u in now[j];
        }
      }
    }
  }

  lemma UnsetLocated(queues: seq<seq<Timer>>, where: map<nat, nat>, i: nat, q: seq<Timer>, id: nat)
    requires AllLocated(queues, where) && i < |queues| && id in where && where[id] == i
    requires forall t :: t in q <==> t in queues[i] && t.id != id
    ensures AllLocated(queues[i := q], where - {id})
  {
    var now, there := queues[i := q], where - {id};
    forall j | 0 <= j < |now| ensures Located(now[j], j, there) {
      assert Located(queues[j], j, where);
      forall x | x in there && there[x] == j ensures HasId(now[j], x) {
        var u :| u in queues[j] && u.id == x;
        assert u in now[j];
      }
    }
  }

  lemma IsLocated(queues: seq<seq<Timer>>, where: map<nat, nat>, i: nat, id: nat)
    requires AllLocated(queues, where) && i < |queues|
    ensures HasId(queues[i], id) <==> id in where && where[id] == i
  {
    assert Located(queues[i], i, where);
  }

  /** Timeouts exceed the slack, and times fit the word. */
  ghost predicate Fit(timeouts: seq<nat>, now: nat) {
    forall i :: 0 <= i < |timeouts| ==> SLACK < timeouts[i] && now + timeouts[i] < WORD
  }

  ghost function DueIds(q: seq<Timer>, now: nat): (r: set<nat>) {
    set t | t in q && Due(t, now) :: t.id
  }

  ghost function AllDue(queues: seq<seq<Timer>>, now: nat): (r: set<nat>) {
    set i, t | 0 <= i < |queues| && t in queues[i] && Due(t, now) :: t.id
  }

  lemma DueAppend(q: seq<Timer>, t: Timer, now: nat)
    requires !Due(t, now)
    ensures DueIds(q + [t], now) == DueIds(q, now)
  {
    hide Due;
  }

  lemma DueWithout(q: seq<Timer>, k: nat, now: nat)
    requires k < |q|
    requires forall t :: t in Without(q, k) <==> t in q && t.id != q[k].id
    ensures DueIds(Without(q, k), now) == DueIds(q, now) - {q[k].id}
  {
    hide Due, Without;
  }

  lemma AllDueDrop(queues: seq<seq<Timer>>, where: map<nat, nat>, now: nat, i: nat, q: seq<Timer>, id: nat)
    requires AllLocated(queues, where) && i < |queues| && id in where && where[id] == i
    requires forall t :: t in q <==> t in queues[i] && t.id != id
    ensures AllDue(queues[i := q], now) == AllDue(queues, now) - {id}
  {
    hide Due;
    var now', r := queues[i := q], AllDue(queues, now) - {id};
    forall x | x in r ensures x in AllDue(now', now) {
      var j, t :| 0 <= j < |queues| && t in queues[j] && Due(t, now) && t.id == x;
      assert t in now'[j];
    }
    forall x | x in AllDue(now', now) ensures x in r {
      var j, t :| 0 <= j < |now'| && t in now'[j] && Due(t, now) && t.id == x;
      assert Located(queues[j], j, where) && t in queues[j];
    }
  }

  lemma AllDueSame(queues: seq<seq<Timer>>, now: nat, i: nat, t: Timer)
    requires i < |queues| && !Due(t, now)
    ensures AllDue(queues[i := queues[i] + [t]], now) == AllDue(queues, now)
  {
    hide Due;
    var more := queues[i := queues[i] + [t]];
    forall x | x in AllDue(queues, now) ensures x in AllDue(more, now) {
      var j, u :| 0 <= j < |queues| && u in queues[j] && Due(u, now) && u.id == x;
      assert u in more[j];
    }
  }

  lemma NotDue(queues: seq<seq<Timer>>, where: map<nat, nat>, now: nat, id: nat)
    requires AllLocated(queues, where) && id !in where
    ensures id !in AllDue(queues, now)
  {
    hide Due;
    assert forall j :: 0 <= j < |queues| ==> Located(queues[j], j, where);
  }

  class Timers {
    const timeouts: seq<nat>
    var queues: seq<seq<Timer>>
    var now: nat
    /** The queue of each armed timer; a timer knows itself whether it is armed. */
    var where: map<nat, nat>

    ghost predicate Valid()
      reads this
    {
      AllRight(queues, timeouts, now) && AllLocated(queues, where)
    }

    constructor (timeouts: seq<nat>, now: nat)
      ensures Valid() && this.timeouts == timeouts && this.now == now && where == map[]
    {
      this.timeouts, this.now, where := timeouts, now, map[];
      queues := seq(|timeouts|, _ => []);
    }

    /** The clock does not go back. */
    method Advance(time: nat)
      requires Valid() && now <= time
      modifies this`now
      ensures Valid() && now == time
    {
      now := time;
    }

    /** `nxe_set_timer`; that the timer is not set is the assertion it makes. */
    method Set(id: nat, i: nat)
      requires Valid() && i < |queues| && id !in where
      modifies this`queues, this`where
      ensures Valid() && where == old(where)[id := i]
      ensures queues == old(queues)[i := old(queues)[i] + [Timer(id, now + timeouts[i])]]
      ensures Fit(timeouts, now) ==> AllDue(queues, now) == old(AllDue(queues, now))
      ensures Fit(timeouts, now) ==> forall j :: 0 <= j < |queues| ==> DueIds(queues[j], now) == DueIds(old(queues)[j], now)
    {
      hide AllRight, AllLocated, HasId, QueueRight, DueIds, AllDue;
      RightAt(queues, timeouts, now, i);
      var t := Timer(id, now + timeouts[i]);
      SetLocated(queues, where, id, i, t);
      AppendRight(queues[i], t, timeouts[i], now);
      SetRight(queues, timeouts, now, i, queues[i] + [t]);
      if Fit(timeouts, now) {
        FreshTimerDue(id, now, timeouts[i]);
        DueAppend(queues[i], t, now);
        AllDueSame(queues, now, i, t);
      }
      queues := queues[i := queues[i] + [t]];
      where := where[id := i];
    }

    /** `nxe_unset_timer`, called with the queue of the timer; nothing happens if it is not set. */
    method Unset(id: nat, i: nat)
      requires Valid() && i < |queues| && (id in where ==> where[id] == i)
      modifies this`queues, this`where
      ensures Valid() && where == old(where) - {id}
      ensures AllDue(queues, now) == old(AllDue(queues, now)) - {id}
      ensures |queues| == |old(queues)|
      ensures id !in old(where) ==> queues == old(queues)
      ensures id in old(where) ==>
                exists k: nat :: k < |old(queues)[i]| && old(queues)[i][k].id == id
                                 && queues == old(queues)[i := Without(old(queues)[i], k)]
      ensures forall j :: 0 <= j < |queues| ==> DueIds(queues[j], now) <= DueIds(old(queues)[j], now)
    {
      hide AllRight, AllLocated, HasId, QueueRight, DueIds, AllDue;
      IsLocated(queues, where, i, id);
      if id !in where {
        assert where - {id} == where;
        NotDue(queues, where, now, id);
        return;
      }
      var k := Find(queues[i], id);
      Remove(i, k);
    }

    /** Takes the timer at place `k` of queue `i` out. */
    method Remove(i: nat, k: nat)
      requires Valid() && i < |queues| && k < |queues[i]|
      modifies this`queues, this`where
      ensures Valid() && where == old(where) - {old(queues)[i][k].id}
      ensures queues == old(queues)[i := Without(old(queues)[i], k)]
      ensures AllDue(queues, now) == old(AllDue(queues, now)) - {old(queues)[i][k].id}
      ensures |queues| == |old(queues)|
      ensures forall j :: 0 <= j < |queues| ==> DueIds(queues[j], now) <= DueIds(old(queues)[j], now)
    {
      hide AllRight, AllLocated, HasId, QueueRight, DueIds, AllDue, Without;
      var id := queues[i][k].id;
      RightAt(queues, timeouts, now, i);
      AtPlace(queues, where, i, k);
      WithoutRight(queues[i], k, timeouts[i], now);
      SetRight(queues, timeouts, now, i, Without(queues[i], k));
      UnsetLocated(queues, where, i, Without(queues[i], k), id);
      DueWithout(queues[i], k, now);
      AllDueDrop(queues, where, now, i, Without(queues[i], k), id);
      queues := queues[i := Without(queues[i], k)];
      where := where - {id};
    }

    /** What an `on_timeout` callback may do: it sets and unsets any timers.  `cancelled` are the
        ones it unset. */
    method OnTimeout() returns (ghost cancelled: set<nat>)
      requires Valid() && Fit(timeouts, now)
      modifies this`queues, this`where
      ensures Valid() && |queues| == |old(queues)| && AllDue(queues, now) == old(AllDue(queues, now)) - cancelled
      ensures forall j :: 0 <= j < |queues| ==> DueIds(queues[j], now) <= DueIds(old(queues)[j], now)
    {
      hide AllRight, AllLocated, DueIds, AllDue;
      cancelled := {};
      var n: nat :| n >= 0;
      for k := 0 to n
        invariant Valid() && |queues| == |old(queues)| && AllDue(queues, now) == old(AllDue(queues, now)) - cancelled
        invariant forall j :: 0 <= j < |queues| ==> DueIds(queues[j], now) <= DueIds(old(queues)[j], now)
      {
        var id: nat, i: nat :| id >= 0 && i >= 0;
        if id in where {
          WhereBound(queues, where);
          Unset(id, where[id]);
          cancelled := cancelled + {id};
        } else if i < |queues| {
          Set(id, i);
        }
      }
    }

    /** `nxe_process_timers`: every due timer goes off once, unless a callback has unset it before,
        and no other one does; callbacks cannot make the loop run on. */
    method Process() returns (ghost fired: seq<nat>, ghost cancelled: set<nat>)
      requires Valid() && Fit(timeouts, now)
      modifies this`queues, this`where
      ensures Valid() && AllDue(queues, now) == {}
      ensures NoDuplicates(fired) && Elems(fired) <= old(AllDue(queues, now)) <= Elems(fired) + cancelled
    {
      hide AllRight, AllLocated, DueIds, AllDue, NoDuplicates, Elems, Due;
      fired, cancelled := [], {};
      NoneFired();
      for i := 0 to |queues|
        invariant Valid() && |queues| == |old(queues)|
        invariant Accounted(old(AllDue(queues, now)), AllDue(queues, now), fired, cancelled)
        invariant forall j :: 0 <= j < i ==> DueIds(queues[j], now) == {}
      {
        fired, cancelled := ProcessQueue(i, old(AllDue(queues, now)), fired, cancelled);
      }
      NoneDueAtAll(queues, now);
    }

    method ProcessQueue(i: nat, ghost due: set<nat>, ghost fired0: seq<nat>, ghost cancelled0: set<nat>)
      returns (ghost fired: seq<nat>, ghost cancelled: set<nat>)
      requires Valid() && Fit(timeouts, now) && i < |queues| && Accounted(due, AllDue(queues, now), fired0, cancelled0)
      modifies this`queues, this`where
      ensures Valid() && |queues| == |old(queues)| && Accounted(due, AllDue(queues, now), fired, cancelled)
      ensures forall j :: 0 <= j < |queues| ==> DueIds(queues[j], now) <= DueIds(old(queues)[j], now)
      ensures DueIds(queues[i], now) == {}
    {
      hide AllRight, AllLocated, DueIds, AllDue, Accounted, Due;
      fired, cancelled := fired0, cancelled0;
      while queues[i] != [] && Due(queues[i][0], now)
        invariant Valid() && |queues| == |old(queues)| && Accounted(due, AllDue(queues, now), fired, cancelled)
        invariant forall j :: 0 <= j < |queues| ==> DueIds(queues[j], now) <= DueIds(old(queues)[j], now)
        decreases |AllDue(queues, now)|
      {
        ghost var before, id := AllDue(queues, now), queues[i][0].id;
        FirstIsDue(queues, now, i);
        Remove(i, 0);
        ghost var c := OnTimeout();
        Fire(due, before, AllDue(queues, now), fired, cancelled, id, c);
        fired, cancelled := fired + [id], cancelled + c;
        Smaller(AllDue(queues, now), before, id);
      }
      RightAt(queues, timeouts, now, i);
      NoneDue(queues[i], timeouts, i, now);
    }

    /** The loop of one queue for `n` turns at most, when the callback of its only timer, just set, does
        nothing but set that timer again. The loop takes as many turns as it is given exactly if the
        timeout lies within the slack (and the subtraction does not wrap), for ever, that is;
        otherwise it takes none. */
    method Refire(id: nat, i: nat, n: nat) returns (turns: nat)
      requires Valid() && i < |queues| && queues[i] == [Timer(id, now + timeouts[i])]
      requires now + timeouts[i] < WORD && (timeouts[i] <= SLACK ==> now < WORD - SLACK)
      modifies this`queues, this`where
      ensures turns == if timeouts[i] <= SLACK <= now + timeouts[i] then n else 0
      ensures Valid() && queues == old(queues) && where == old(where)
    {
      hide AllRight, AllLocated, DueIds, AllDue, Due;
      turns := 0;
      RightAt(queues, timeouts, now, i);
      FreshTimerDue(id, now, timeouts[i]);
      AtPlace(queues, where, i, 0);
      while turns < n && queues[i] != [] && Due(queues[i][0], now)
        invariant Valid() && queues == old(queues) && where == old(where)
        invariant turns <= n && (turns > 0 ==> timeouts[i] <= SLACK <= now + timeouts[i])
      {
        ghost var q, w := queues, where;
        Remove(i, 0);
        assert Without(q[i], 0) == [];
        Set(id, i);
        assert queues[i] == [] + [Timer(id, now + timeouts[i])] == q[i];
        assert queues == q[i := []][i := q[i]] == q;
        assert where == w;
        turns := turns + 1;
      }
    }

    /** `nxe_closest_tq`: the queue whose first timer is due first of all. */
    method Closest() returns (c: int)
      requires Valid()
      ensures -1 <= c < |queues| && (c == -1 <==> where == map[])
      ensures c >= 0 ==> queues[c] != [] && forall i, t :: 0 <= i < |queues| && t in queues[i] ==> queues[c][0].due <= t.due
    {
      c := -1;
      for i := 0 to |queues|
        invariant -1 <= c < i && (c == -1 <==> forall j :: 0 <= j < i ==> queues[j] == [])
        invariant c >= 0 ==> queues[c] != [] && forall j :: 0 <= j < i && queues[j] != [] ==> queues[c][0].due <= queues[j][0].due
      {
        if queues[i] != [] && (c == -1 || queues[i][0].due < queues[c][0].due) {
          c := i;
        }
      }
      if c == -1 {
        NothingArmed(queues, where);
      } else {
        AtPlace(queues, where, c, 0);
        forall i, t | 0 <= i < |queues| && t in queues[i] ensures queues[c][0].due <= t.due {
          RightAt(queues, timeouts, now, i);
        }
      }
    }
  }

  ghost function Elems(ids: seq<nat>): (r: set<nat>) {
    set id | id in ids
  }

  /** Of the timers that were due, those not yet gone off nor unset are still due. */
  ghost predicate Accounted(due: set<nat>, now: set<nat>, fired: seq<nat>, cancelled: set<nat>) {
    NoDuplicates(fired) && Elems(fired) <= due && now == due - Elems(fired) - cancelled
  }

  lemma NoneFired()
    ensures NoDuplicates<nat>([]) && Elems([]) == {}
  {
  }

  lemma Fire(due: set<nat>, before: set<nat>, now: set<nat>, fired: seq<nat>, cancelled: set<nat>, id: nat, more: set<nat>)
    requires Accounted(due, before, fired, cancelled) && id in before && now == before - {id} - more
    ensures Accounted(due, now, fired + [id], cancelled + more)
  {
    assert Elems(fired + [id]) == Elems(fired) + {id};
  }

  lemma Smaller(s: set<nat>, t: set<nat>, id: nat)
    requires id in t && s <= t - {id}
    ensures |s| < |t|
  {
    var rest := t - {id} - s;
    assert t == s + rest + {id};
    assert |s + rest| == |s| + |rest|;
  }

  lemma FirstIsDue(queues: seq<seq<Timer>>, now: nat, i: nat)
    requires i < |queues| && queues[i] != [] && Due(queues[i][0], now)
    ensures queues[i][0].id in AllDue(queues, now)
  {
  }

  /** In a sorted queue whose first timer is not due, none is. */
  lemma NoneDue(q: seq<Timer>, timeouts: seq<nat>, i: nat, now: nat)
    requires Fit(timeouts, now) && i < |timeouts| && QueueRight(q, timeouts[i], now)
    requires q == [] || !Due(q[0], now)
    ensures DueIds(q, now) == {}
  {
    forall t | t in q ensures !Due(t, now) {
      assert q[0] in q;
      assert q[0].due <= t.due;
      NoWrap(q[0].due);
      NoWrap(t.due);
    }
  }

  lemma NoWrap(due: nat)
    requires SLACK < due < WORD
    ensures (due - SLACK) % WORD == due - SLACK
  {
  }

  lemma NoneDueAtAll(queues: seq<seq<Timer>>, now: nat)
    requires forall j :: 0 <= j < |queues| ==> DueIds(queues[j], now) == {}
    ensures AllDue(queues, now) == {}
  {
    hide Due, DueIds;
    forall j | 0 <= j < |queues| ensures forall t :: t in queues[j] ==> !Due(t, now) { NoDueIds(queues[j], now); }
  }

  lemma NoDueIds(q: seq<Timer>, now: nat)
    ensures DueIds(q, now) == {} ==> forall t :: t in q ==> !Due(t, now)
  {
    hide Due;
    forall t | t in q ensures Due(t, now) ==> t.id in DueIds(q, now) { }
  }

  lemma NothingArmed(queues: seq<seq<Timer>>, where: map<nat, nat>)
    requires AllLocated(queues, where) && forall j :: 0 <= j < |queues| ==> queues[j] == []
    ensures where == map[]
  {
    Somewhere(queues, where);
    assert forall id :: id !in where;
  }

  lemma Somewhere(queues: seq<seq<Timer>>, where: map<nat, nat>)
    requires AllLocated(queues, where)
    ensures forall id :: id in where ==> where[id] < |queues| && HasId(queues[where[id]], id)
  {
    forall id | id in where ensures where[id] < |queues| && HasId(queues[where[id]], id) {
      assert Located(queues[where[id]], where[id], where);
    }
  }

  /** The timer's place in its queue, if it has one. */
  method Find(q: seq<Timer>, id: nat) returns (k: nat)
    ensures k <= |q| && (k < |q| <==> HasId(q, id)) && (k < |q| ==> q[k].id == id)
  {
    k := 0;
    while k < |q| && q[k].id != id
      invariant k <= |q| && forall j :: 0 <= j < k ==> q[j].id != id
    {
      k := k + 1;
    }
  }

  lemma WhereBound(queues: seq<seq<Timer>>, where: map<nat, nat>)
    requires AllLocated(queues, where)
    ensures forall id :: id in where ==> where[id] < |queues|
  {
  }

  lemma AtPlace(queues: seq<seq<Timer>>, where: map<nat, nat>, i: nat, k: nat)
    requires AllLocated(queues, where) && i < |queues| && k < |queues[i]|
    ensures queues[i][k].id in where && where[queues[i][k].id] == i
  {
    assert Located(queues[i], i, where) && queues[i][k] in queues[i];
  }

  lemma RightAt(queues: seq<seq<Timer>>, timeouts: seq<nat>, now: nat, i: nat)
    requires AllRight(queues, timeouts, now) && i < |queues|
    ensures |queues| == |timeouts| && QueueRight(queues[i], timeouts[i], now)
  {
  }
}
