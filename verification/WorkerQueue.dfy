/** The ring queue of `nx_queue_tpl.h` as its memory cells, and the queue it stands for. */
module WorkerQueue {

  /** `items`, `head` and `tail`; one cell always stays free. */
  datatype Ring<T> = Ring(items: seq<T>, head: nat, tail: nat)

  ghost predicate WellFormed<T>(r: Ring<T>) {
    r.head < |r.items| && r.tail < |r.items|
  }

  function Next(i: nat, n: nat): (j: nat)
    requires i < n
    ensures j < n
  {
    if i + 1 == n then 0 else i + 1
  }

  predicate IsEmpty<T>(r: Ring<T>) {
    r.head == r.tail
  }

  predicate IsFull<T>(r: Ring<T>)
    requires r.tail < |r.items|
  {
    r.head == Next(r.tail, |r.items|)
  }

  function Length<T>(r: Ring<T>): (n: nat)
    requires WellFormed(r)
  {
    if r.tail >= r.head then r.tail - r.head else r.tail - r.head + |r.items|
  }

  /** The queued items, first to come out first. */
  ghost function Content<T>(r: Ring<T>): (q: seq<T>)
    requires WellFormed(r)
    ensures |q| == Length(r)
  {
    if r.head <= r.tail then r.items[r.head..r.tail] else r.items[r.head..] + r.items[..r.tail]
  }

  // The separate memory steps of pop and push.

  function ItemAtHead<T>(r: Ring<T>): (res: T)
    requires r.head < |r.items|
  {
    r.items[r.head]
  }

  function AdvanceHead<T>(r: Ring<T>): (res: Ring<T>)
    requires r.head < |r.items|
  {
    r.(head := Next(r.head, |r.items|))
  }

  function WriteAtTail<T>(r: Ring<T>, x: T): (res: Ring<T>)
    requires r.tail < |r.items|
  {
    r.(items := r.items[r.tail := x])
  }

  function AdvanceTail<T>(r: Ring<T>): (res: Ring<T>)
    requires r.tail < |r.items|
  {
    r.(tail := Next(r.tail, |r.items|))
  }

  /** The queue is found empty just if nothing is in it, and full just if all cells but one are taken. */
  lemma EmptyOrFull<T>(r: Ring<T>)
    requires WellFormed(r)
    ensures IsEmpty(r) <==> Content(r) == []
    ensures IsFull(r) <==> |Content(r)| == |r.items| - 1
  {
  }

  /** Advancing the head takes out the item read at the head. */
  lemma PopContent<T>(r: Ring<T>)
    requires WellFormed(r) && !IsEmpty(r)
    ensures var r' := AdvanceHead(r);
            && WellFormed(r') && Content(r) == [ItemAtHead(r)] + Content(r')
            && r'.items == r.items && r'.tail == r.tail
  {
  }

  /** Writing at the tail of a queue that is not full changes nothing yet, */
  lemma WriteContent<T>(r: Ring<T>, x: T)
    requires WellFormed(r)
    ensures var r' := WriteAtTail(r, x);
            WellFormed(r') && Content(r') == Content(r) && r'.items[r'.tail] == x
  {
  }

  /** and advancing the tail puts the written item in. */
  lemma PushContent<T>(r: Ring<T>)
    requires WellFormed(r) && !IsFull(r)
    ensures var r' := AdvanceTail(r);
            WellFormed(r') && Content(r') == Content(r) + [r.items[r.tail]]
  {
  }

  /** A queue that was not full when a push looked stays so while pops go on. */
  lemma PopKeepsRoom<T>(r: Ring<T>)
    requires WellFormed(r) && !IsEmpty(r) && !IsFull(r)
    ensures !IsFull(AdvanceHead(r))
  {
  }
}
