/** The hand-off of requests to worker threads: the net thread and any number of workers as a state
    machine whose steps are single accesses to shared memory, interleaved in every possible way. */
module Workers {
  import opened Octets
  import opened WorkerQueue

  /** `NXWEB_MAX_WORKERS_IN_QUEUE` */
  const QUEUE_CELLS := 128

  /** Where a worker is in `nxw_worker_main`. */
  datatype Pc =
    | Waiting    // in the wait for a start
    | Running    // inside the job
    | Ran        // behind the job, `do_job` still set
    | Cleared    // `do_job` cleared
    | Flagged    // the job's done flag set
    | Triggered  // the eventfd written
    | Locked     // holds the queue mutex
    | PushItem   // found the queue not full
    | PushTail   // wrote itself into the queue's free cell
    | Pushed     // advanced the tail, still holds the mutex
    | Dead

  /** A started job: a number of its own and the connection it is for. */
  datatype Job = Job(id: nat, conn: nat)

  /** `job` is `do_job` with its parameter, `flagOf` the connection `job_done` points into,
      `signal` whether the eventfd has been written and not read. */
  datatype Worker = Worker(pc: Pc, job: Option<Job>, flagOf: nat, stop: bool, signal: bool)

  /** `cur` is the started job the connection has not answered yet, with its worker. */
  datatype Conn = Conn(cur: Option<(nat, nat)>, flag: bool, sub: Option<nat>, inWorker: bool)

  datatype Purpose = ForConn(conn: nat) | ForGc

  /** What the net thread is in the middle of. */
  datatype Net =
    | Idle
    | PopItem(purpose: Purpose)           // found the queue not empty
    | PopHead(purpose: Purpose, w: nat)   // read the worker at the head
    | Got(conn: nat, w: nat)              // has a worker for the connection
    | Joined(conn: nat, w: nat)           // subscribed the connection to it
    | Posted(conn: nat, w: nat)           // started it
    | Spin(conn: nat)                     // got a wake-up for the connection
    | Retire(w: nat)                      // took a surplus worker out of the queue

  /** `mail` holds the undelivered wake-up messages; `runs` and `replies` count, for each job, how
      often it was executed and answered, and `owner` says which connection it is for. */
  datatype State = State(
    workers: seq<Worker>, conns: seq<Conn>, ring: Ring<nat>, lock: Option<nat>, net: Net,
    mail: seq<nat>, down: bool, runs: seq<nat>, replies: seq<nat>, owner: seq<nat>)

  datatype Action =
    // net thread
    | Accept                  // a new connection
    | BeginPop(c: nat)        // nxw_get_worker: the queue is not empty
    | BeginCreate(c: nat)     // nxw_get_worker: the queue is empty, make a worker; with any limit on how many
                              // may live, it just happens less often
    | ReadHead | MoveHead     // the rest of nx_queue_workers_pop
    | Subscribe | Start | MarkInWorker
    | Emit(w: nat)            // the loop reads the eventfd and publishes to the subscribers
    | Deliver                 // the loop delivers the next wake-up message
    | Reply                   // the spin ends: the response starts
    | GcPop | GcStop          // nxw_gc_factory
    | Shutdown                // nxw_finalize_factory
    // worker w
    | Wake(w: nat) | Quit(w: nat) | Execute(w: nat) | Clear(w: nat) | SetFlag(w: nat) | Trigger(w: nat)
    | Lock(w: nat) | Leave(w: nat) | FindFull(w: nat) | FindRoom(w: nat) | WriteItem(w: nat) | MoveTail(w: nat)
    | Unlock(w: nat)

  predicate WorkerAt(s: State, w: nat, pc: Pc) {
    w < |s.workers| && s.workers[w].pc == pc
  }

  predicate Enabled(s: State, a: Action) {
    match a
    case Accept => s.net == Idle
    case BeginPop(c) => s.net == Idle && !s.down && Free(s, c) && !IsEmpty(s.ring)
    case BeginCreate(c) => s.net == Idle && !s.down && Free(s, c) && IsEmpty(s.ring)
    case ReadHead => s.net.PopItem? && s.ring.head < |s.ring.items|
    case MoveHead => s.net.PopHead? && s.ring.head < |s.ring.items|
    case Subscribe => s.net.Got? && s.net.conn < |s.conns|
    case Start => s.net.Joined? && s.net.conn < |s.conns| && s.net.w < |s.workers|
    case MarkInWorker => s.net.Posted? && s.net.conn < |s.conns|
    case Emit(w) => s.net == Idle && w < |s.workers| && s.workers[w].signal
    case Deliver => s.net == Idle && s.mail != [] && s.mail[0] < |s.conns|
    case Reply => s.net.Spin? && s.net.conn < |s.conns| && s.conns[s.net.conn].flag
                  && s.conns[s.net.conn].cur.Some? && s.conns[s.net.conn].cur.value.0 < |s.replies|
    case GcPop => s.net == Idle && !s.down && !IsEmpty(s.ring)
    case GcStop => s.net.Retire? && s.net.w < |s.workers|
    case Shutdown => s.net == Idle
    case Wake(w) => WorkerAt(s, w, Waiting) && s.workers[w].job.Some?
    case Quit(w) => WorkerAt(s, w, Waiting) && s.workers[w].job == None && (s.workers[w].stop || s.down)
    case Execute(w) => WorkerAt(s, w, Running) && s.workers[w].job.Some? && s.workers[w].job.value.id < |s.runs|
    case Clear(w) => WorkerAt(s, w, Ran)
    case SetFlag(w) => WorkerAt(s, w, Cleared) && s.workers[w].flagOf < |s.conns|
    case Trigger(w) => WorkerAt(s, w, Flagged)
    case Lock(w) => WorkerAt(s, w, Triggered) && s.lock == None
    case Leave(w) => WorkerAt(s, w, Locked) && (s.workers[w].stop || s.down)
    case FindFull(w) => WorkerAt(s, w, Locked) && !s.workers[w].stop && !s.down && s.ring.tail < |s.ring.items| && IsFull(s.ring)
    case FindRoom(w) => WorkerAt(s, w, Locked) && !s.workers[w].stop && !s.down && s.ring.tail < |s.ring.items| && !IsFull(s.ring)
    case WriteItem(w) => WorkerAt(s, w, PushItem) && s.ring.tail < |s.ring.items|
    case MoveTail(w) => WorkerAt(s, w, PushTail) && s.ring.tail < |s.ring.items|
    case Unlock(w) => WorkerAt(s, w, Pushed)
  }

  /** A connection that is not waiting for a worker can have a request handled. */
  predicate Free(s: State, c: nat) {
    c < |s.conns| && s.conns[c].cur == None
  }

  function SetPc(s: State, w: nat, pc: Pc): (r: State)
    requires w < |s.workers|
  {
    s.(workers := s.workers[w := s.workers[w].(pc := pc)])
  }

  /** The connections subscribed to worker `w`, among the first `n`. */
  function Subscribers(conns: seq<Conn>, w: nat, n: nat): (cs: seq<nat>)
    requires n <= |conns|
    ensures forall c :: c in cs <==> 0 <= c < n && conns[c].sub == Some(w)
  {
    if n == 0 then []
    else Subscribers(conns, w, n - 1) + (if conns[n - 1].sub == Some(w) then [n - 1] else [])
  }

  /** Unsubscribing takes a connection's undelivered messages with it. */
  function Undelivered(mail: seq<nat>, c: nat): (r: seq<nat>)
    ensures forall d :: d in r <==> d in mail && d != c
  {
    if mail == [] then []
    else (if mail[0] == c then [] else [mail[0]]) + Undelivered(mail[1..], c)
  }

  function Apply(s: State, a: Action): (r: State)
    requires Enabled(s, a)
  {
    match a
    case Accept => s.(conns := s.conns + [Conn(None, false, None, false)])
    case BeginPop(c) => s.(net := PopItem(ForConn(c)))
    case BeginCreate(c) =>
      s.(workers := s.workers + [Worker(Waiting, None, 0, false, false)], net := Got(c, |s.workers|))
    case ReadHead => s.(net := PopHead(s.net.purpose, ItemAtHead(s.ring)))
    case MoveHead =>
      s.(ring := AdvanceHead(s.ring),
         net := if s.net.purpose.ForConn? then Got(s.net.purpose.conn, s.net.w) else Retire(s.net.w))
    case Subscribe =>
      var c := s.net.conn;
      s.(conns := s.conns[c := s.conns[c].(sub := Some(s.net.w))], net := Joined(c, s.net.w))
    case Start =>
      var c, w, j := s.net.conn, s.net.w, |s.runs|;
      s.(workers := s.workers[w := s.workers[w].(job := Some(Job(j, c)), flagOf := c)],
         conns := s.conns[c := s.conns[c].(cur := Some((j, w)), flag := false)],
         runs := s.runs + [0], replies := s.replies + [0], owner := s.owner + [c], net := Posted(c, w))
    case MarkInWorker =>
      var c := s.net.conn;
      s.(conns := s.conns[c := s.conns[c].(inWorker := true)], net := Idle)
    case Emit(w) =>
      s.(workers := s.workers[w := s.workers[w].(signal := false)],
         mail := s.mail + Subscribers(s.conns, w, |s.conns|))
    case Deliver =>
      var c := s.mail[0];
      s.(conns := s.conns[c := s.conns[c].(sub := None, inWorker := false)], mail := Undelivered(s.mail, c), net := Spin(c))
    case Reply =>
      var c := s.net.conn;
      var j := s.conns[c].cur.value.0;
      s.(conns := s.conns[c := s.conns[c].(cur := None)], replies := s.replies[j := s.replies[j] + 1], net := Idle)
    case GcPop => s.(net := PopItem(ForGc))
    case GcStop => s.(workers := s.workers[s.net.w := s.workers[s.net.w].(stop := true)], net := Idle)
    case Shutdown => s.(down := true)
    case Wake(w) => SetPc(s, w, Running)
    case Quit(w) => SetPc(s, w, Dead)
    case Execute(w) =>
      var j := s.workers[w].job.value.id;
      SetPc(s, w, Ran).(runs := s.runs[j := s.runs[j] + 1])
    case Clear(w) => s.(workers := s.workers[w := s.workers[w].(pc := Cleared, job := None)])
    case SetFlag(w) =>
      var c := s.workers[w].flagOf;
      SetPc(s, w, Flagged).(conns := s.conns[c := s.conns[c].(flag := true)])
    case Trigger(w) => s.(workers := s.workers[w := s.workers[w].(pc := Triggered, signal := true)])
    case Lock(w) => SetPc(s, w, Locked).(lock := Some(w))
    case Leave(w) => SetPc(s, w, Dead).(lock := None)
    case FindFull(w) => SetPc(s, w, Dead).(lock := None)
    case FindRoom(w) => SetPc(s, w, PushItem)
    case WriteItem(w) => SetPc(s, w, PushTail).(ring := WriteAtTail(s.ring, w))
    case MoveTail(w) => SetPc(s, w, Pushed).(ring := AdvanceTail(s.ring))
    case Unlock(w) => SetPc(s, w, Waiting).(lock := None)
  }

  function Init(): (r: State) {
    State([], [], Ring(seq(QUEUE_CELLS, _ => 0), 0, 0), None, Idle, [], false, [], [], [])
  }

  // ---------------------------------------------------------------- the invariant

  /** The mutex is held by the worker that is between taking and releasing it. */
  predicate InPush(pc: Pc) {
    pc == Locked || pc == PushItem || pc == PushTail || pc == Pushed
  }

  /** A worker with nothing to do: waiting, or about to. */
  predicate AtRest(x: Worker) {
    x.job == None && (x.pc == Waiting || x.pc == Pushed)
  }

  /** The worker the net thread has in its hands. */
  function Hand(net: Net): (r: Option<nat>) {
    match net
    case Got(_, w) => Some(w)
    case Joined(_, w) => Some(w)
    case Retire(w) => Some(w)
    case _ => None
  }

  ghost predicate QueueOk(s: State) {
    && WellFormed(s.ring) && |s.ring.items| == QUEUE_CELLS
    && var q := Content(s.ring);
       && (forall i, k :: 0 <= i < k < |q| ==> q[i] != q[k])
       && (forall i :: 0 <= i < |q| ==> QueuedOk(s, q[i]))
       && (s.net.PopItem? ==> q != [])
       && (s.net.PopHead? ==> q != [] && s.net.w == q[0])
  }

  /** A queued worker has no job; only a shutdown can end it while it is queued. */
  ghost predicate QueuedOk(s: State, w: nat) {
    && w < |s.workers| && s.workers[w].job == None && !s.workers[w].stop
    && (AtRest(s.workers[w]) || (s.down && s.workers[w].pc == Dead))
    && Hand(s.net) != Some(w)
  }

  ghost predicate NetOk(s: State) {
    && (s.down ==> s.net == Idle || s.net.Spin?)
    && (Hand(s.net).Some? ==> Hand(s.net).value < |s.workers| && AtRest(s.workers[Hand(s.net).value])
                              && !s.workers[Hand(s.net).value].stop)
    && (match s.net
        case PopItem(ForConn(c)) => Free(s, c)
        case PopHead(ForConn(c), _) => Free(s, c)
        case Got(c, _) => Free(s, c)
        case Joined(c, _) => Free(s, c)
        case Posted(c, _) => c < |s.conns| && s.conns[c].cur.Some?
        case Spin(c) => c < |s.conns| && s.conns[c].cur.Some? && s.conns[c].sub == None
        case _ => true)
    && (s.lock.Some? ==> s.lock.value < |s.workers| && InPush(s.workers[s.lock.value].pc))
    && (forall c :: c in s.mail ==> c < |s.conns| && s.conns[c].sub.Some? && s.conns[c].cur.Some?)
  }

  /** What a worker's place in its loop says about its job and its connection. */
  ghost predicate WorkerOk(s: State, w: nat)
    requires w < |s.workers|
  {
    var x := s.workers[w];
    && (InPush(x.pc) ==> s.lock == Some(w))
    && (x.pc == PushItem || x.pc == PushTail ==> s.ring.tail < |s.ring.items| && !IsFull(s.ring))
    && (x.pc == PushItem || x.pc == PushTail ==> !x.stop)
    && (x.pc == PushTail ==> s.ring.items[s.ring.tail] == w)
    && (x.pc == Running || x.pc == Ran ==> x.job.Some?)
    && (x.job.Some? ==>
          && (x.pc == Waiting || x.pc == Pushed || x.pc == Running || x.pc == Ran)
          && x.flagOf == x.job.value.conn < |s.conns| && Unfinished(s, x.flagOf, w)
          && s.conns[x.flagOf].cur.value.0 == x.job.value.id)
    && (x.pc == Cleared ==> x.flagOf < |s.conns| && Unfinished(s, x.flagOf, w))
  }

  /** The connection waits for this worker, whose job has not been flagged done. */
  ghost predicate Unfinished(s: State, c: nat, w: nat)
    requires c < |s.conns|
  {
    s.conns[c].cur.Some? && s.conns[c].cur.value.1 == w && !s.conns[c].flag
  }

  /** What an unanswered connection can rely on. */
  ghost predicate ConnOk(s: State, c: nat)
    requires c < |s.conns|
  {
    var x := s.conns[c];
    && (x.cur == None ==> x.sub.Some? ==> s.net.Joined? && s.net.conn == c && s.net.w == x.sub.value)
    && (s.net.Joined? && s.net.conn == c ==> x.sub == Some(s.net.w))
    && (x.cur.Some? ==>
          var (j, w) := x.cur.value;
          && j < |s.runs| == |s.replies| == |s.owner| && s.replies[j] == 0 && s.owner[j] == c && w < |s.workers|
          && (x.sub == Some(w) || (x.sub == None && s.net == Spin(c)))
          && (if x.flag then s.runs[j] == 1 && (x.sub.Some? ==> WakeUpPending(s, c, w))
              else InProgress(s, c, j, w)))
  }

  /** The job is with its worker; it has run just when the worker is behind it. */
  ghost predicate InProgress(s: State, c: nat, j: nat, w: nat)
    requires w < |s.workers| && j < |s.runs|
  {
    var x := s.workers[w];
    && x.flagOf == c
    && (x.job == Some(Job(j, c)) || (x.job == None && x.pc == Cleared))
    && s.runs[j] == (if x.pc == Ran || x.pc == Cleared then 1 else 0)
  }

  /** A wake-up for the finished job is on its way. */
  ghost predicate WakeUpPending(s: State, c: nat, w: nat)
    requires w < |s.workers|
  {
    c in s.mail || s.workers[w].signal || (s.workers[w].pc == Flagged && s.workers[w].flagOf == c)
  }

  /** A job is answered at most once and only after it has run; it is answered, or waited for. */
  ghost predicate JobOk(s: State, j: nat)
    requires j < |s.runs| == |s.replies| == |s.owner|
  {
    && s.runs[j] <= 1 && s.replies[j] <= 1
    && (s.replies[j] == 1 ==> s.runs[j] == 1)
    && (s.replies[j] == 0 ==> s.owner[j] < |s.conns| && WaitsFor(s, s.owner[j], j))
  }

  ghost predicate WaitsFor(s: State, c: nat, j: nat)
    requires c < |s.conns|
  {
    s.conns[c].cur.Some? && s.conns[c].cur.value.0 == j
  }

  ghost predicate WorkersOk(s: State) {
    forall w :: 0 <= w < |s.workers| ==> WorkerOk(s, w)
  }

  ghost predicate ConnsOk(s: State) {
    forall c :: 0 <= c < |s.conns| ==> ConnOk(s, c)
  }

  ghost predicate JobsOk(s: State) {
    && |s.runs| == |s.replies| == |s.owner|
    && forall j :: 0 <= j < |s.runs| ==> JobOk(s, j)
  }

  ghost predicate Inv(s: State) {
    QueueOk(s) && NetOk(s) && WorkersOk(s) && ConnsOk(s) && JobsOk(s)
  }

  // ---------------------------------------------------------------- every step keeps it

  lemma InitInv()
    ensures Inv(Init())
  {
  }

  /** The worker neither executes a job nor sets a flag, and keeps a wake-up that is on its way. */
  predicate StaysOnJob(x: Worker, y: Worker) {
    && y.flagOf == x.flagOf
    && (y.job == x.job || (x.pc == Ran && y.pc == Cleared && y.job == None))
    && (y.pc == Ran || y.pc == Cleared <==> x.pc == Ran || x.pc == Cleared)
    && (x.pc == Cleared ==> y.pc == Cleared)
    && (x.signal ==> y.signal)
    && (x.pc == Flagged ==> y.signal || y.pc == Flagged)
  }

  /** A step that changes one worker, at most takes or gives back the mutex, and the queue only while
      holding it. */
  lemma RingStep(s: State, s': State, w: nat)
    requires Inv(s) && w < |s.workers| == |s'.workers|
    requires s' == s.(workers := s.workers[w := s'.workers[w]], lock := s'.lock, ring := s'.ring)
    requires s'.lock == s.lock || (s.lock == None && s'.lock == Some(w)) || (s.lock == Some(w) && s'.lock == None)
    requires s'.lock == Some(w) ==> InPush(s'.workers[w].pc)
    requires s'.ring == s.ring || s.lock == Some(w)
    requires WorkerOk(s', w) && QueueOk(s')
    requires Hand(s.net) == Some(w) ==> AtRest(s'.workers[w]) && !s'.workers[w].stop
    requires StaysOnJob(s.workers[w], s'.workers[w])
    ensures Inv(s')
  {
    hide QueueOk;
    forall v | 0 <= v < |s'.workers| ensures WorkerOk(s', v) { assert WorkerOk(s, v); }
    forall c | 0 <= c < |s'.conns| ensures ConnOk(s', c) {
      assert ConnOk(s, c);
      if s.conns[c].cur.Some? && !s.conns[c].flag {
        var (j, v) := s.conns[c].cur.value;
        assert InProgress(s', c, j, v);
      }
    }
    JobsKept(s, s');
  }

  lemma WorkerStep(s: State, s': State, w: nat)
    requires Inv(s) && w < |s.workers| == |s'.workers|
    requires s' == s.(workers := s.workers[w := s'.workers[w]], lock := s'.lock)
    requires s'.lock == s.lock || (s.lock == None && s'.lock == Some(w)) || (s.lock == Some(w) && s'.lock == None)
    requires s'.lock == Some(w) ==> InPush(s'.workers[w].pc)
    requires WorkerOk(s', w)
    requires Hand(s.net) == Some(w) ==> AtRest(s'.workers[w]) && !s'.workers[w].stop
    requires w in Content(s.ring) ==> QueuedOk(s', w)
    requires StaysOnJob(s.workers[w], s'.workers[w])
    ensures Inv(s')
  {
    hide ConnsOk, WorkersOk, JobsOk;
    var q := Content(s.ring);
    forall i | 0 <= i < |q| ensures QueuedOk(s', q[i]) { assert QueuedOk(s, q[i]); }
    RingStep(s, s', w);
  }

  /** A step of the net thread alone. */
  lemma NetStep(s: State, s': State)
    requires Inv(s) && s' == s.(net := s'.net, down := s'.down, ring := s'.ring)
    requires !s.net.Joined? && !s.net.Spin? && !s'.net.Joined? && !s'.net.Spin?
    requires QueueOk(s') && NetOk(s')
    requires s'.ring.tail == s.ring.tail && s'.ring.items == s.ring.items && (!IsFull(s.ring) ==> !IsFull(s'.ring))
    ensures Inv(s')
  {
    forall w | 0 <= w < |s'.workers| ensures WorkerOk(s', w) {
      assert WorkerOk(s, w);
    }
    forall c | 0 <= c < |s'.conns| ensures ConnOk(s', c) {
      assert ConnOk(s, c);
    }
    forall j | 0 <= j < |s'.runs| ensures JobOk(s', j) {
      assert JobOk(s, j);
    }
  }

  /** A step that neither executes, answers nor starts a job. */
  lemma JobsKept(s: State, s': State)
    requires JobsOk(s) && s'.runs == s.runs && s'.replies == s.replies && s'.owner == s.owner && |s.conns| <= |s'.conns|
    requires forall c :: 0 <= c < |s.conns| ==> s'.conns[c].cur == s.conns[c].cur
    ensures JobsOk(s')
  {
    forall j | 0 <= j < |s'.runs| ensures JobOk(s', j) { assert JobOk(s, j); }
  }

  /** What is known of a connection and of the worker it waits for. */
  lemma WorkerOf(s: State, c: nat)
    requires WorkersOk(s) && ConnsOk(s) && c < |s.conns|
    ensures ConnOk(s, c)
    ensures s.conns[c].cur.Some? ==> s.conns[c].cur.value.1 < |s.workers| && WorkerOk(s, s.conns[c].cur.value.1)
  {
    assert ConnOk(s, c);
  }

  /** A step of the net thread that leaves the jobs, their flags and the workers' places alone. */
  lemma QuietStep(s: State, s': State)
    requires Inv(s) && s' == s.(workers := s'.workers, conns := s'.conns, net := s'.net, mail := s'.mail)
    requires |s.workers| <= |s'.workers| && |s.conns| <= |s'.conns|
    requires forall v :: 0 <= v < |s.workers| ==>
               && s'.workers[v] == s.workers[v].(signal := s'.workers[v].signal, stop := s'.workers[v].stop)
               && (s'.workers[v].stop != s.workers[v].stop ==> Hand(s.net) == Some(v))
    requires forall v :: |s.workers| <= v < |s'.workers| ==> s'.workers[v] == Worker(Waiting, None, 0, false, false)
    requires forall c :: 0 <= c < |s.conns| ==> s'.conns[c].cur == s.conns[c].cur && s'.conns[c].flag == s.conns[c].flag
    requires Hand(s'.net).Some? ==> Hand(s'.net) == Hand(s.net) || Hand(s'.net).value >= |s.workers|
    requires !s'.net.PopItem? && !s'.net.PopHead? && NetOk(s') && ConnsOk(s')
    ensures Inv(s')
  {
    hide ConnsOk;
    forall v | 0 <= v < |s'.workers| ensures WorkerOk(s', v) { assert v < |s.workers| ==> WorkerOk(s, v); }
    JobsKept(s, s');
    var q := Content(s.ring);
    forall i | 0 <= i < |q| ensures QueuedOk(s', q[i]) { assert QueuedOk(s, q[i]); }
  }

  lemma AcceptInv(s: State)
    requires Inv(s) && Enabled(s, Accept)
    ensures Inv(Apply(s, Accept))
  {
    var s' := Apply(s, Accept);
    forall d | 0 <= d < |s'.conns| ensures ConnOk(s', d) { assert d < |s.conns| ==> ConnOk(s, d); }
    QuietStep(s, s');
  }

  lemma BeginCreateInv(s: State, c: nat)
    requires Inv(s) && Enabled(s, BeginCreate(c))
    ensures Inv(Apply(s, BeginCreate(c)))
  {
    var s' := Apply(s, BeginCreate(c));
    forall d | 0 <= d < |s'.conns| ensures ConnOk(s', d) { assert ConnOk(s, d); }
    QuietStep(s, s');
  }

  lemma SubscribeInv(s: State)
    requires Inv(s) && Enabled(s, Subscribe)
    ensures Inv(Apply(s, Subscribe))
  {
    var s' := Apply(s, Subscribe);
    forall d | 0 <= d < |s'.conns| ensures ConnOk(s', d) { assert ConnOk(s, d); }
    QuietStep(s, s');
  }

  lemma MarkInWorkerInv(s: State)
    requires Inv(s) && Enabled(s, MarkInWorker)
    ensures Inv(Apply(s, MarkInWorker))
  {
    var s' := Apply(s, MarkInWorker);
    forall d | 0 <= d < |s'.conns| ensures ConnOk(s', d) { assert ConnOk(s, d); }
    QuietStep(s, s');
  }

  lemma EmitInv(s: State, w: nat)
    requires Inv(s) && Enabled(s, Emit(w))
    ensures Inv(Apply(s, Emit(w)))
  {
    var s' := Apply(s, Emit(w));
    forall c | c in s'.mail ensures c < |s.conns| && s.conns[c].sub.Some? && s.conns[c].cur.Some? {
      if c < |s.conns| { assert ConnOk(s, c); }
    }
    forall d | 0 <= d < |s'.conns| ensures ConnOk(s', d) { assert ConnOk(s, d); }
    QuietStep(s, s');
  }

  lemma DeliverInv(s: State)
    requires Inv(s) && Enabled(s, Deliver)
    ensures Inv(Apply(s, Deliver))
  {
    var s' := Apply(s, Deliver);
    forall d | 0 <= d < |s'.conns| ensures ConnOk(s', d) { assert ConnOk(s, d); }
    QuietStep(s, s');
  }

  lemma GcStopInv(s: State)
    requires Inv(s) && Enabled(s, GcStop)
    ensures Inv(Apply(s, GcStop))
  {
    var s' := Apply(s, GcStop);
    forall d | 0 <= d < |s'.conns| ensures ConnOk(s', d) { assert ConnOk(s, d); }
    QuietStep(s, s');
  }

  lemma StartInv(s: State)
    requires Inv(s) && Enabled(s, Start)
    ensures Inv(Apply(s, Start))
  {
    var s' := Apply(s, Start);
    assert WorkersOk(s') by {
      hide QueueOk, JobsOk;
      forall v | 0 <= v < |s'.workers| ensures WorkerOk(s', v) { assert v < |s.workers| ==> WorkerOk(s, v); }
    }
    assert ConnsOk(s') by {
      hide QueueOk, JobsOk;
      forall d | 0 <= d < |s'.conns| ensures ConnOk(s', d) { assert d < |s.conns| ==> ConnOk(s, d); }
    }
    assert JobsOk(s') by {
      hide QueueOk, WorkersOk, NetOk;
      forall j | 0 <= j < |s'.runs| ensures JobOk(s', j) { assert j < |s.runs| ==> JobOk(s, j); }
    }
    assert QueueOk(s') by {
      hide ConnsOk, WorkersOk, JobsOk;
      var q := Content(s.ring);
      forall i | 0 <= i < |q| ensures QueuedOk(s', q[i]) { assert QueuedOk(s, q[i]); }
    }
    hide QueueOk, WorkersOk, ConnsOk, JobsOk;
  }

  lemma ReplyInv(s: State)
    requires Inv(s) && Enabled(s, Reply)
    ensures Inv(Apply(s, Reply))
  {
    var s' := Apply(s, Reply);
    assert ConnOk(s, s.net.conn);
    assert WorkersOk(s') by {
      hide QueueOk, JobsOk;
      forall v | 0 <= v < |s'.workers| ensures WorkerOk(s', v) { assert v < |s.workers| ==> WorkerOk(s, v); }
    }
    assert ConnsOk(s') by {
      hide QueueOk, JobsOk;
      forall d | 0 <= d < |s.conns| ensures ConnOk(s', d) { WorkerOf(s, d); }
    }
    assert JobsOk(s') by {
      hide QueueOk, WorkersOk, NetOk;
      forall j | 0 <= j < |s'.runs| ensures JobOk(s', j) { assert j < |s.runs| ==> JobOk(s, j); }
    }
    assert QueueOk(s') by {
      hide ConnsOk, WorkersOk, JobsOk;
      var q := Content(s.ring);
      forall i | 0 <= i < |q| ensures QueuedOk(s', q[i]) { assert QueuedOk(s, q[i]); }
    }
    hide QueueOk, WorkersOk, ConnsOk, JobsOk;
  }

  lemma ExecuteInv(s: State, w: nat)
    requires Inv(s) && Enabled(s, Execute(w))
    ensures Inv(Apply(s, Execute(w)))
  {
    var s' := Apply(s, Execute(w));
    assert WorkerOk(s, w);
    assert ConnOk(s, s.workers[w].flagOf);
    assert WorkersOk(s') by {
      hide QueueOk, JobsOk;
      forall v | 0 <= v < |s'.workers| ensures WorkerOk(s', v) { assert v < |s.workers| ==> WorkerOk(s, v); }
    }
    assert ConnsOk(s') by {
      hide QueueOk, JobsOk;
      forall d | 0 <= d < |s.conns| ensures ConnOk(s', d) { WorkerOf(s, d); }
    }
    assert JobsOk(s') by {
      hide QueueOk, WorkersOk, NetOk;
      forall j | 0 <= j < |s'.runs| ensures JobOk(s', j) { assert j < |s.runs| ==> JobOk(s, j); }
    }
    assert QueueOk(s') by {
      hide ConnsOk, WorkersOk, JobsOk;
      var q := Content(s.ring);
      forall i | 0 <= i < |q| ensures QueuedOk(s', q[i]) { assert QueuedOk(s, q[i]); }
    }
    hide QueueOk, WorkersOk, ConnsOk, JobsOk;
  }

  lemma SetFlagInv(s: State, w: nat)
    requires Inv(s) && Enabled(s, SetFlag(w))
    ensures Inv(Apply(s, SetFlag(w)))
  {
    var s' := Apply(s, SetFlag(w));
    assert WorkerOk(s, w);
    assert ConnOk(s, s.workers[w].flagOf);
    assert WorkersOk(s') by {
      hide QueueOk, JobsOk;
      forall v | 0 <= v < |s'.workers| ensures WorkerOk(s', v) { assert v < |s.workers| ==> WorkerOk(s, v); }
    }
    assert ConnsOk(s') by {
      hide QueueOk, JobsOk;
      forall d | 0 <= d < |s.conns| ensures ConnOk(s', d) { WorkerOf(s, d); }
    }
    assert JobsOk(s') by { JobsKept(s, s'); }
    assert QueueOk(s') by {
      hide ConnsOk, WorkersOk, JobsOk;
      var q := Content(s.ring);
      forall i | 0 <= i < |q| ensures QueuedOk(s', q[i]) { assert QueuedOk(s, q[i]); }
    }
    hide QueueOk, WorkersOk, ConnsOk, JobsOk;
  }

  lemma WriteItemInv(s: State, w: nat)
    requires Inv(s) && Enabled(s, WriteItem(w))
    ensures Inv(Apply(s, WriteItem(w)))
  {
    var s' := Apply(s, WriteItem(w));
    assert WorkerOk(s, w);
    WriteContent(s.ring, w);
    NotQueued(s, w);
    PushStep(s, s', w);
  }

  lemma MoveTailInv(s: State, w: nat)
    requires Inv(s) && Enabled(s, MoveTail(w))
    ensures Inv(Apply(s, MoveTail(w)))
  {
    var s' := Apply(s, MoveTail(w));
    assert WorkerOk(s, w);
    PushContent(s.ring);
    NotQueued(s, w);
    PushStep(s, s', w);
  }

  /** A worker that holds the mutex puts itself into the queue. */
  lemma PushStep(s: State, s': State, w: nat)
    requires Inv(s) && w < |s.workers| == |s'.workers|
    requires s' == s.(workers := s.workers[w := s.workers[w].(pc := s'.workers[w].pc)], ring := s'.ring)
    requires s.lock == Some(w) && !AtRest(s.workers[w]) && InPush(s.workers[w].pc) && InPush(s'.workers[w].pc)
    requires WorkerOk(s', w) && WellFormed(s'.ring) && |s'.ring.items| == QUEUE_CELLS
    requires var q := Content(s.ring);
             w !in q && (Content(s'.ring) == q || (Content(s'.ring) == q + [w] && QueuedOk(s', w)))
    ensures Inv(s')
  {
    hide ConnsOk, WorkersOk, JobsOk;
    assert QueueOk(s') by {
      var q := Content(s.ring);
      forall i | 0 <= i < |q| ensures QueuedOk(s', q[i]) { assert QueuedOk(s, q[i]); }
      if Content(s'.ring) == q + [w] { assert (q + [w])[|q|] == w && forall i :: 0 <= i < |q| ==> (q + [w])[i] == q[i]; }
    }
    hide QueueOk;
    RingStep(s, s', w);
  }

  lemma NetInv(s: State, a: Action)
    requires Inv(s) && Enabled(s, a) && (a.BeginPop? || a == ReadHead || a == GcPop || a == Shutdown)
    ensures Inv(Apply(s, a))
  {
    var s' := Apply(s, a);
    var q := Content(s.ring);
    forall i | 0 <= i < |q| ensures QueuedOk(s', q[i]) {
      assert QueuedOk(s, q[i]);
    }
    NetStep(s, s');
  }

  /** A worker with a job, or on its way to the queue, is not in the queue. */
  lemma NotQueued(s: State, w: nat)
    requires QueueOk(s) && w < |s.workers|
    ensures w in Content(s.ring) ==> QueuedOk(s, w)
    ensures !AtRest(s.workers[w]) && s.workers[w].pc != Dead ==> w !in Content(s.ring)
  {
    var q := Content(s.ring);
    if w in q {
      var i :| 0 <= i < |q| && q[i] == w;
      assert QueuedOk(s, q[i]);
    }
  }

  lemma MoveHeadInv(s: State)
    requires Inv(s) && Enabled(s, MoveHead)
    ensures Inv(Apply(s, MoveHead))
  {
    hide WorkersOk, ConnsOk, JobsOk;
    var s' := Apply(s, MoveHead);
    PopContent(s.ring);
    if !IsFull(s.ring) { PopKeepsRoom(s.ring); }
    var q, q' := Content(s.ring), Content(s'.ring);
    assert QueuedOk(s, q[0]);
    assert forall i :: 0 <= i < |q'| ==> q'[i] == q[i + 1];
    forall i | 0 <= i < |q'| ensures QueuedOk(s', q'[i]) {
      assert q'[i] == q[i + 1] && QueuedOk(s, q[i + 1]);
    }
    NetStep(s, s');
  }

  lemma WaitInv(s: State, w: nat, a: Action)
    requires Inv(s) && Enabled(s, a) && (a == Wake(w) || a == Quit(w))
    ensures Inv(Apply(s, a))
  {
    var s' := Apply(s, a);
    assert WorkerOk(s, w);
    if w in Content(s.ring) { assert QueuedOk(s, w); }
    WorkerStep(s, s', w);
  }

  /** Steps of a worker that is not queued. */
  lemma WorkInv(s: State, w: nat, a: Action)
    requires Inv(s) && Enabled(s, a) && (a == Clear(w) || a == Trigger(w))
    ensures Inv(Apply(s, a))
  {
    var s' := Apply(s, a);
    assert WorkerOk(s, w);
    NotQueued(s, w);
    WorkerStep(s, s', w);
  }

  lemma LockInv(s: State, w: nat, a: Action)
    requires Inv(s) && Enabled(s, a) && (a == Lock(w) || a == FindRoom(w))
    ensures Inv(Apply(s, a))
  {
    var s' := Apply(s, a);
    assert WorkerOk(s, w);
    NotQueued(s, w);
    WorkerStep(s, s', w);
  }

  lemma UnlockInv(s: State, w: nat, a: Action)
    requires Inv(s) && Enabled(s, a) && (a == Leave(w) || a == FindFull(w) || a == Unlock(w))
    ensures Inv(Apply(s, a))
  {
    var s' := Apply(s, a);
    assert WorkerOk(s, w);
    if w in Content(s.ring) { assert QueuedOk(s, w); }
    WorkerStep(s, s', w);
  }

  /** Every step of every thread keeps the invariant. */
  lemma StepInv(s: State, a: Action)
    requires Inv(s) && Enabled(s, a)
    ensures Inv(Apply(s, a))
  {
    hide Inv, Apply, Enabled;
    match a
    case Accept => AcceptInv(s);
    case BeginPop(_) => NetInv(s, a);
    case BeginCreate(c) => BeginCreateInv(s, c);
    case ReadHead => NetInv(s, a);
    case MoveHead => MoveHeadInv(s);
    case Subscribe => SubscribeInv(s);
    case Start => StartInv(s);
    case MarkInWorker => MarkInWorkerInv(s);
    case Emit(w) => EmitInv(s, w);
    case Deliver => DeliverInv(s);
    case Reply => ReplyInv(s);
    case GcPop => NetInv(s, a);
    case GcStop => GcStopInv(s);
    case Shutdown => NetInv(s, a);
    case Wake(w) => WaitInv(s, w, a);
    case Quit(w) => WaitInv(s, w, a);
    case Execute(w) => ExecuteInv(s, w);
    case Clear(w) => WorkInv(s, w, a);
    case SetFlag(w) => SetFlagInv(s, w);
    case Trigger(w) => WorkInv(s, w, a);
    case Lock(w) => LockInv(s, w, a);
    case Leave(w) => UnlockInv(s, w, a);
    case FindFull(w) => UnlockInv(s, w, a);
    case FindRoom(w) => LockInv(s, w, a);
    case WriteItem(w) => WriteItemInv(s, w);
    case MoveTail(w) => MoveTailInv(s, w);
    case Unlock(w) => UnlockInv(s, w, a);
  }

  // ---------------------------------------------------------------- whole runs

  ghost predicate Step(s: State, a: Action, s': State) {
    Enabled(s, a) && s' == Apply(s, a)
  }

  /** A run: an interleaving of enabled steps from the start. */
  ghost predicate IsRun(ss: seq<State>, acts: seq<Action>) {
    && |ss| == |acts| + 1 && ss[0] == Init()
    && forall i :: 0 <= i < |acts| ==> Step(ss[i], acts[i], ss[i + 1])
  }

  lemma {:induction false} RunInv(ss: seq<State>, acts: seq<Action>, i: nat)
    requires IsRun(ss, acts) && i < |ss|
    ensures Inv(ss[i])
  {
    if i == 0 {
      InitInv();
    } else {
      var k := i - 1;
      RunInv(ss, acts, k);
      assert Step(ss[k], acts[k], ss[k + 1]);
      StepInv(ss[k], acts[k]);
    }
  }

  /** In every interleaving the response of a request starts only when that request's own job has
      been executed, exactly once, and has not been answered yet, whichever job the wake-up
      came from. */
  lemma ReplyFollowsOwnJob(ss: seq<State>, acts: seq<Action>, i: nat)
    requires IsRun(ss, acts) && i < |acts| && acts[i] == Reply
    ensures Enabled(ss[i], Reply)
    ensures var s := ss[i];
            var c := s.net.conn;
            var j := s.conns[c].cur.value.0;
            && j < |s.runs| == |s.replies| == |s.owner| && s.owner[j] == c
            && s.runs[j] == 1 && s.replies[j] == 0 && ss[i + 1].replies[j] == 1
  {
    RunInv(ss, acts, i);
    assert Step(ss[i], acts[i], ss[i + 1]);
    assert ConnOk(ss[i], ss[i].net.conn);
  }

  /** A started job is executed at most once and answered at most once, never before it has been
      executed; as long as it is unanswered its connection waits for it. */
  lemma JobsRunOnce(ss: seq<State>, acts: seq<Action>, i: nat, j: nat)
    requires IsRun(ss, acts) && i < |ss| && j < |ss[i].runs|
    ensures var s := ss[i];
            && |s.runs| == |s.replies| == |s.owner| && s.replies[j] <= s.runs[j] <= 1
            && (s.replies[j] == 0 ==> s.owner[j] < |s.conns| && WaitsFor(s, s.owner[j], j))
  {
    RunInv(ss, acts, i);
    assert JobOk(ss[i], j);
  }

  /** The queue never holds a worker twice, nor one with a job, nor the one just taken out. */
  lemma QueuedWorkersAreFree(ss: seq<State>, acts: seq<Action>, i: nat)
    requires IsRun(ss, acts) && i < |ss|
    ensures var s := ss[i];
            && WellFormed(s.ring)
            && var q := Content(s.ring);
               && (forall k, l :: 0 <= k < l < |q| ==> q[k] != q[l])
               && (forall k :: 0 <= k < |q| ==>
                     q[k] < |s.workers| && s.workers[q[k]].job == None && Hand(s.net) != Some(q[k]))
  {
    RunInv(ss, acts, i);
    var q := Content(ss[i].ring);
    forall k | 0 <= k < |q|
      ensures q[k] < |ss[i].workers| && ss[i].workers[q[k]].job == None && Hand(ss[i].net) != Some(q[k])
    {
      assert QueuedOk(ss[i], q[k]);
    }
  }

  /** A worker that waits for a job, or is about to, and has not been told to stop. */
  predicate IsIdle(x: Worker) {
    x.job == None && (x.pc == Waiting || x.pc == Pushed) && !x.stop
  }

  /** Every idle worker is in the queue, or in the net thread's hand. */
  ghost predicate IdlesQueued(s: State) {
    && WellFormed(s.ring)
    && forall w: nat :: w < |s.workers| && IsIdle(s.workers[w]) && Hand(s.net) != Some(w) ==> w in Content(s.ring)
  }

  /** A step that makes no worker idle and leaves the queue and the hand alone. */
  lemma IdlesSame(s: State, s': State)
    requires IdlesQueued(s) && s'.ring == s.ring && |s'.workers| >= |s.workers|
    requires forall w: nat :: w < |s.workers| && IsIdle(s'.workers[w]) && Hand(s'.net) != Some(w) ==>
               IsIdle(s.workers[w]) && Hand(s.net) != Some(w)
    requires forall w: nat :: |s.workers| <= w < |s'.workers| ==> Hand(s'.net) == Some(w)
    ensures IdlesQueued(s')
  {
  }

  lemma IdlesStep(s: State, a: Action)
    requires Inv(s) && Enabled(s, a) && IdlesQueued(s)
    ensures IdlesQueued(Apply(s, a))
  {
    hide Inv, Enabled, Apply, IdlesQueued;
    match a {
      case MoveHead => IdlesPopped(s);
      case WriteItem(w) => IdlesWritten(s, w);
      case MoveTail(w) => IdlesPushed(s, w);
      case _ => if ByWorker(a) { IdlesByWorker(s, a); } else { IdlesByNet(s, a); }
    }
  }

  predicate ByWorker(a: Action) {
    a.Wake? || a.Quit? || a.Execute? || a.Clear? || a.SetFlag? || a.Trigger? || a.Lock? || a.Leave? || a.FindFull?
    || a.FindRoom? || a.Unlock?
  }

  lemma IdlesByWorker(s: State, a: Action)
    requires Inv(s) && Enabled(s, a) && IdlesQueued(s) && ByWorker(a)
    ensures IdlesQueued(Apply(s, a))
  {
    hide QueueOk, NetOk, ConnsOk, WorkersOk, JobsOk;
    IdlesSame(s, Apply(s, a));
  }

  lemma IdlesByNet(s: State, a: Action)
    requires Inv(s) && Enabled(s, a) && IdlesQueued(s) && !ByWorker(a) && a != MoveHead && !a.WriteItem? && !a.MoveTail?
    ensures IdlesQueued(Apply(s, a))
  {
    hide QueueOk, ConnsOk, WorkersOk, JobsOk;
    IdlesSame(s, Apply(s, a));
  }

  lemma IdlesWritten(s: State, w: nat)
    requires Inv(s) && Enabled(s, WriteItem(w)) && IdlesQueued(s)
    ensures IdlesQueued(Apply(s, WriteItem(w)))
  {
    WriteContent(s.ring, w);
  }

  lemma IdlesPopped(s: State)
    requires Inv(s) && Enabled(s, MoveHead) && IdlesQueued(s)
    ensures IdlesQueued(Apply(s, MoveHead))
  {
    PopContent(s.ring);
    var q, q' := Content(s.ring), Content(Apply(s, MoveHead).ring);
    assert forall w :: w in q <==> w == q[0] || w in q';
  }

  lemma IdlesPushed(s: State, w: nat)
    requires Inv(s) && Enabled(s, MoveTail(w)) && IdlesQueued(s)
    ensures IdlesQueued(Apply(s, MoveTail(w)))
  {
    assert WorkerOk(s, w);
    PushContent(s.ring);
    var q := Content(s.ring);
    assert forall v :: v in q + [w] <==> v in q || v == w;
  }

  lemma {:induction false} RunIdles(ss: seq<State>, acts: seq<Action>, i: nat)
    requires IsRun(ss, acts) && i < |ss|
    ensures IdlesQueued(ss[i])
  {
    if i > 0 {
      var k := i - 1;
      RunIdles(ss, acts, k);
      RunInv(ss, acts, k);
      assert Step(ss[k], acts[k], ss[k + 1]);
      IdlesStep(ss[k], acts[k]);
    }
  }

  /** No idle worker is ever forgotten: in every state of every interleaving a worker that waits without a
      job, is not told to stop and is not in the net thread's hand is in the queue; so a new worker is
      made only when there is no idle one. */
  lemma IdleWorkersAreQueued(ss: seq<State>, acts: seq<Action>, i: nat, w: nat)
    requires IsRun(ss, acts) && i < |ss| && w < |ss[i].workers|
    requires var x := ss[i].workers[w]; x.job == None && x.pc == Waiting && !x.stop && Hand(ss[i].net) != Some(w)
    ensures WellFormed(ss[i].ring) && w in Content(ss[i].ring)
    ensures i < |acts| ==> !acts[i].BeginCreate?
  {
    RunIdles(ss, acts, i);
    EmptyOrFull(ss[i].ring);
    if i < |acts| { assert Step(ss[i], acts[i], ss[i + 1]); }
  }

  /** A worker ends only if it was told to stop, the server shuts down, or 127 workers are queued; until then
      it comes back for another job. */
  lemma WorkersEndOnlyIf(ss: seq<State>, acts: seq<Action>, i: nat, w: nat)
    requires IsRun(ss, acts) && i < |acts| && w < |ss[i].workers| && ss[i].workers[w].pc != Dead
    ensures w < |ss[i + 1].workers|
    ensures ss[i + 1].workers[w].pc == Dead ==>
              var s := ss[i]; WellFormed(s.ring) && (s.workers[w].stop || s.down || |Content(s.ring)| == 127)
  {
    RunInv(ss, acts, i);
    EmptyOrFull(ss[i].ring);
    assert Step(ss[i], acts[i], ss[i + 1]);
    hide Content;
    assert |ss[i].ring.items| == 128;
    EndsByOne(ss[i], acts[i], w);
  }

  lemma EndsByOne(s: State, a: Action, w: nat)
    requires Enabled(s, a) && w < |s.workers| && s.workers[w].pc != Dead
    ensures w < |Apply(s, a).workers|
    ensures Apply(s, a).workers[w].pc == Dead ==> s.workers[w].stop || s.down || (s.ring.tail < |s.ring.items| && IsFull(s.ring))
  {
    hide IsFull, IsEmpty, ItemAtHead, AdvanceHead, WriteAtTail, AdvanceTail, Subscribers, Undelivered, Free;
    match a {
      case Quit(v) =>
      case Leave(v) =>
      case FindFull(v) =>
      case Wake(v) =>
      case Execute(v) =>
      case Clear(v) =>
      case SetFlag(v) =>
      case Trigger(v) =>
      case Lock(v) =>
      case FindRoom(v) =>
      case WriteItem(v) =>
      case MoveTail(v) =>
      case Unlock(v) =>
      case _ =>
    }
  }

  /** No wake-up is lost: as long as a connection whose job is done still waits to be woken, a
      message for it is queued, its worker's eventfd is written, or the worker is about to write it. */
  lemma NoLostWakeUp(ss: seq<State>, acts: seq<Action>, i: nat, c: nat)
    requires IsRun(ss, acts) && i < |ss| && c < |ss[i].conns|
    requires var x := ss[i].conns[c]; x.cur.Some? && x.sub.Some? && x.flag
    ensures var s, w := ss[i], ss[i].conns[c].sub.value;
            && s.conns[c].cur.value.1 == w < |s.workers|
            && WakeUpPending(s, c, w)
  {
    RunInv(ss, acts, i);
    assert ConnOk(ss[i], c);
  }

  /** How far a worker is from setting the done flag of its job. */
  function Rank(pc: Pc): (r: nat)
    ensures r <= 5
  {
    match pc
    case Pushed => 5 case Waiting => 4 case Running => 3 case Ran => 2 case Cleared => 1 case _ => 0
  }

  /** The next step of a worker. */
  function Onward(s: State, w: nat): (r: Action)
    requires w < |s.workers|
  {
    var x := s.workers[w];
    match x.pc
    case Waiting => if x.job.Some? then Wake(w) else Quit(w)
    case Running => Execute(w)
    case Ran => Clear(w)
    case Cleared => SetFlag(w)
    case Flagged => Trigger(w)
    case Triggered => Lock(w)
    case Locked =>
      if x.stop || s.down then Leave(w) else if s.ring.tail < |s.ring.items| && IsFull(s.ring) then FindFull(w) else FindRoom(w)
    case PushItem => WriteItem(w)
    case PushTail => MoveTail(w)
    case _ => Unlock(w)
  }

  /** No worker is ever stuck: in every state of every interleaving a worker that has not ended can take a
      step, unless it waits for a job, or for the mutex; and then the worker that has the mutex can. */
  lemma NoWorkerIsStuck(ss: seq<State>, acts: seq<Action>, i: nat, w: nat)
    requires IsRun(ss, acts) && i < |ss| && w < |ss[i].workers| && ss[i].workers[w].pc != Dead
    ensures var s := ss[i]; var x := s.workers[w];
            if x.pc == Waiting && x.job == None && !x.stop && !s.down then true
            else if x.pc == Triggered && s.lock.Some? then
              s.lock.value < |s.workers| && s.lock.value != w && Enabled(s, Onward(s, s.lock.value))
            else Enabled(s, Onward(s, w))
  {
    RunInv(ss, acts, i);
    var s := ss[i];
    if s.workers[w].pc == Triggered && s.lock.Some? {
      HolderMoves(s);
    } else if s.workers[w].pc != Waiting || s.workers[w].job.Some? || s.workers[w].stop || s.down {
      WorkerMoves(s, w);
    }
  }

  lemma WorkerMoves(s: State, w: nat)
    requires Inv(s) && w < |s.workers|
    requires var x := s.workers[w];
             x.pc != Dead && (x.pc == Triggered ==> s.lock == None)
             && (x.pc == Waiting && x.job == None ==> x.stop || s.down)
    ensures Enabled(s, Onward(s, w))
  {
    hide NetOk, ConnsOk;
    assert WorkerOk(s, w);
    if s.workers[w].job.Some? || s.workers[w].pc == Cleared { JobIsKnown(s, w); }
  }

  /** The job a worker has to do, or has just done, is that of its connection. */
  lemma JobIsKnown(s: State, w: nat)
    requires Inv(s) && w < |s.workers| && (s.workers[w].job.Some? || s.workers[w].pc == Cleared)
    ensures s.workers[w].flagOf < |s.conns| && (s.workers[w].job.Some? ==> s.workers[w].job.value.id < |s.runs|)
  {
    hide NetOk, QueueOk, JobsOk;
    assert WorkerOk(s, w);
    assert ConnOk(s, s.workers[w].flagOf);
  }

  lemma HolderMoves(s: State)
    requires Inv(s) && s.lock.Some?
    ensures s.lock.value < |s.workers| && InPush(s.workers[s.lock.value].pc) && Enabled(s, Onward(s, s.lock.value))
  {
    assert s.lock.value < |s.workers| && InPush(s.workers[s.lock.value].pc) by { hide QueueOk, WorkersOk, ConnsOk, JobsOk; }
    WorkerMoves(s, s.lock.value);
  }

  /** The connection waits for a job of this worker. */
  ghost predicate WaitsOn(s: State, c: nat, w: nat) {
    c < |s.conns| && s.conns[c].cur.Some? && s.conns[c].cur.value.1 == w < |s.workers|
  }

  ghost predicate Done(s: State, c: nat) {
    c < |s.conns| && s.conns[c].flag
  }

  /** Workers may have moved and set flags, and that is all. */
  ghost predicate OnlyFlags(s: State, t: State) {
    && t.net == s.net && t.mail == s.mail && t.replies == s.replies && |t.conns| == |s.conns|
    && forall d :: 0 <= d < |s.conns| ==> t.conns[d] == s.conns[d].(flag := t.conns[d].flag)
  }

  lemma OnwardStep(s: State, c: nat, w: nat)
    requires Inv(s) && WaitsOn(s, c, w) && !Done(s, c)
    ensures var a := Onward(s, w);
            && Enabled(s, a)
            && var s' := Apply(s, a);
               && OnlyFlags(s, s') && WaitsOn(s', c, w) && 1 <= Rank(s.workers[w].pc)
               && (Done(s', c) || Rank(s'.workers[w].pc) < Rank(s.workers[w].pc))
  {
    hide QueueOk, NetOk, JobsOk;
    assert ConnOk(s, c);
    assert WorkerOk(s, w);
  }

  /** The actions can be taken one after the other. */
  ghost predicate Runs(s: State, acts: seq<Action>)
    decreases |acts|
  {
    acts == [] || (Enabled(s, acts[0]) && Runs(Apply(s, acts[0]), acts[1..]))
  }

  ghost function After(s: State, acts: seq<Action>): (r: State)
    requires Runs(s, acts)
    decreases |acts|
  {
    if acts == [] then s else After(Apply(s, acts[0]), acts[1..])
  }

  lemma {:induction false} RunsConcat(s: State, a: seq<Action>, b: seq<Action>)
    requires Runs(s, a) && Runs(After(s, a), b)
    ensures Runs(s, a + b) && After(s, a + b) == After(After(s, a), b)
    decreases |a|
  {
    hide Enabled, Apply;
    if a == [] {
      assert a + b == b;
    } else {
      RunsConcat(Apply(s, a[0]), a[1..], b);
      assert (a + b)[1..] == a[1..] + b && (a + b)[0] == a[0];
    }
  }

  /** An action and what can be done behind it. */
  lemma RunsCons(s: State, a: Action, acts: seq<Action>)
    requires Inv(s) && Enabled(s, a)
    ensures Inv(Apply(s, a))
    ensures Runs(Apply(s, a), acts) ==> Runs(s, [a] + acts) && After(s, [a] + acts) == After(Apply(s, a), acts)
  {
    hide Enabled, Apply, Inv;
    StepInv(s, a);
    assert ([a] + acts)[1..] == acts;
  }

  lemma RunsNone(s: State, acts: seq<Action>)
    requires acts == []
    ensures Runs(s, acts) && After(s, acts) == s
  {
  }

  /** The spin ends: whatever connection the net thread waits for, its worker alone, in at most five steps
      that nothing can block, sets the flag the spin waits for. */
  lemma {:induction false} SpinEnds(s: State, c: nat, w: nat) returns (acts: seq<Action>)
    requires Inv(s) && WaitsOn(s, c, w)
    ensures Runs(s, acts) && Inv(After(s, acts)) && OnlyFlags(s, After(s, acts))
    ensures WaitsOn(After(s, acts), c, w) && Done(After(s, acts), c)
    ensures |acts| <= if Done(s, c) then 0 else Rank(s.workers[w].pc)
    decreases !Done(s, c), if w < |s.workers| then Rank(s.workers[w].pc) else 0
  {
    hide Inv, Enabled, Apply, Onward, Runs, After;
    acts := [];
    if Done(s, c) {
      RunsNone(s, acts);
    } else {
      var a := Onward(s, w);
      OnwardStep(s, c, w);
      RunsCons(s, a, acts);
      acts := SpinEnds(Apply(s, a), c, w);
      RunsCons(s, a, acts);
      acts := [a] + acts;
    }
  }

  // ---------------------------------------------------------------- every job can be answered

  /** No answer is taken back, and other connections keep waiting as they did. */
  ghost predicate Others(s: State, t: State, c: nat) {
    && t.mail == s.mail && |t.conns| == |s.conns|
    && forall d :: 0 <= d < |s.conns| && d != c ==> t.conns[d] == s.conns[d].(flag := t.conns[d].flag)
  }

  /** A spin and the reply behind it. */
  lemma Answer(s: State, c: nat) returns (acts: seq<Action>)
    requires Inv(s) && s.net == Spin(c)
    ensures Runs(s, acts) && Inv(After(s, acts)) && After(s, acts).net == Idle && Others(s, After(s, acts), c)
    ensures c < |s.conns| && s.conns[c].cur.Some?
    ensures var j := s.conns[c].cur.value.0;
            j < |s.replies| && s.replies[j] == 0 && After(s, acts).replies == s.replies[j := 1]
  {
    hide Enabled, Apply, Runs, After, Inv;
    var w := SpinKnows(s, c);
    acts := SpinEnds(s, c, w);
    var t := After(s, acts);
    var none: seq<Action> := [];
    ReplyNow(t, c);
    RunsNone(Apply(t, Reply), none);
    RunsCons(t, Reply, none);
    RunsConcat(s, acts, [Reply] + none);
    acts := acts + ([Reply] + none);
  }

  lemma SpinKnows(s: State, c: nat) returns (w: nat)
    requires Inv(s) && s.net == Spin(c)
    ensures WaitsOn(s, c, w)
    ensures var j := s.conns[c].cur.value.0; j < |s.replies| && s.replies[j] == 0
  {
    assert ConnOk(s, c);
    w := s.conns[c].cur.value.1;
  }

  lemma ReplyNow(s: State, c: nat)
    requires Inv(s) && s.net == Spin(c) && Done(s, c)
    ensures Enabled(s, Reply) && s.conns[c].cur.Some?
    ensures var t, j := Apply(s, Reply), s.conns[c].cur.value.0;
            t.net == Idle && Others(s, t, c) && j < |s.replies| && t.replies == s.replies[j := 1]
  {
    assert ConnOk(s, c);
  }

  /** What the net thread does next of what it is in the middle of, and how far it is from being idle. */
  function NetAction(net: Net): (r: Action) {
    match net
    case PopItem(_) => ReadHead
    case PopHead(_, _) => MoveHead
    case Got(_, _) => Subscribe
    case Joined(_, _) => Start
    case Posted(_, _) => MarkInWorker
    case _ => GcStop
  }

  function NetRank(net: Net): (r: nat) {
    match net
    case Idle => 0
    case PopItem(_) => 6
    case PopHead(_, _) => 5
    case Got(_, _) => 4
    case Joined(_, _) => 3
    case Posted(_, _) => 2
    case Retire(_) => 1
    case Spin(_) => 1
  }

  /** No answer is taken back. */
  ghost predicate Keeps(replies: seq<nat>, later: seq<nat>) {
    |replies| <= |later| && forall j :: 0 <= j < |replies| ==> replies[j] <= later[j]
  }

  lemma NetGoesOn(s: State)
    requires Inv(s) && s.net != Idle && !s.net.Spin?
    ensures var a := NetAction(s.net);
            Enabled(s, a) && NetRank(Apply(s, a).net) < NetRank(s.net) && Keeps(s.replies, Apply(s, a).replies)
  {
    hide JobsOk, ConnsOk, WorkersOk;
  }

  /** The net thread can finish what it is in the middle of. */
  lemma {:induction false} Settle(s: State) returns (acts: seq<Action>)
    requires Inv(s)
    ensures Runs(s, acts) && Inv(After(s, acts)) && After(s, acts).net == Idle && Keeps(s.replies, After(s, acts).replies)
    decreases NetRank(s.net)
  {
    hide Enabled, Apply, Runs, After, Inv;
    acts := [];
    if s.net == Idle {
      RunsNone(s, acts);
    } else if s.net.Spin? {
      acts := Answer(s, s.net.conn);
    } else {
      var a := NetAction(s.net);
      NetGoesOn(s);
      RunsCons(s, a, acts);
      acts := Settle(Apply(s, a));
      RunsCons(s, a, acts);
      acts := [a] + acts;
    }
  }

  lemma TriggerNow(s: State, c: nat, w: nat)
    requires Inv(s) && s.net == Idle && WaitsOn(s, c, w) && Done(s, c) && c !in s.mail && !s.workers[w].signal
    ensures Enabled(s, Trigger(w))
    ensures var t := Apply(s, Trigger(w)); OnlyFlags(s, t) && WaitsOn(t, c, w) && t.workers[w].signal
  {
    assert ConnOk(s, c);
  }

  lemma EmitNow(s: State, c: nat, w: nat)
    requires Inv(s) && s.net == Idle && WaitsOn(s, c, w) && s.workers[w].signal
    ensures Enabled(s, Emit(w))
    ensures var t := Apply(s, Emit(w)); c in t.mail && t.net == Idle && t.conns == s.conns && t.replies == s.replies
  {
    assert ConnOk(s, c);
  }

  /** A wake-up for a waiting connection can be brought about. */
  lemma Summon(s: State, c: nat) returns (acts: seq<Action>)
    requires Inv(s) && s.net == Idle && c < |s.conns| && s.conns[c].cur.Some?
    ensures Runs(s, acts)
    ensures var t := After(s, acts);
            && Inv(t) && t.net == Idle && c in t.mail && t.replies == s.replies
            && c < |t.conns| && t.conns[c].cur == s.conns[c].cur
  {
    acts := [];
    if c in s.mail {
      RunsNone(s, acts);
      return;
    }
    assert ConnOk(s, c);
    hide Enabled, Apply, Runs, After, Inv;
    var none: seq<Action> := [];
    var w := s.conns[c].cur.value.1;
    acts := SpinEnds(s, c, w);
    var t := After(s, acts);
    if !t.workers[w].signal {
      TriggerNow(t, c, w);
      RunsNone(Apply(t, Trigger(w)), none);
      RunsCons(t, Trigger(w), none);
      RunsConcat(s, acts, [Trigger(w)] + none);
      acts, t := acts + ([Trigger(w)] + none), Apply(t, Trigger(w));
    }
    EmitNow(t, c, w);
    RunsNone(Apply(t, Emit(w)), none);
    RunsCons(t, Emit(w), none);
    RunsConcat(s, acts, [Emit(w)] + none);
    acts := acts + ([Emit(w)] + none);
  }

  lemma {:induction false} UndeliveredShorter(mail: seq<nat>, c: nat)
    ensures |Undelivered(mail, c)| <= |mail| && (mail != [] && mail[0] == c ==> |Undelivered(mail, c)| < |mail|)
    decreases |mail|
  {
    if mail != [] { UndeliveredShorter(mail[1..], c); }
  }

  lemma DeliverNow(s: State, c: nat)
    requires Inv(s) && s.net == Idle && c in s.mail
    ensures c < |s.conns| && s.conns[c].cur.Some? && Enabled(s, Deliver)
    ensures var t, d := Apply(s, Deliver), s.mail[0];
            && t.net == Spin(d) && t.replies == s.replies && |t.mail| < |s.mail| && (c != d ==> c in t.mail)
            && |t.conns| == |s.conns| && t.conns[c].cur == s.conns[c].cur
  {
    UndeliveredShorter(s.mail, s.mail[0]);
    assert s.mail[0] in s.mail;
  }

  /** Wake-ups are delivered one after the other, and each of them can be seen through. */
  lemma {:induction false} Drain(s: State, c: nat) returns (acts: seq<Action>)
    requires Inv(s) && s.net == Idle && c in s.mail
    ensures Runs(s, acts) && Inv(After(s, acts))
    ensures c < |s.conns| && s.conns[c].cur.Some?
    ensures var j := s.conns[c].cur.value.0; j < |After(s, acts).replies| && After(s, acts).replies[j] == 1
    decreases |s.mail|
  {
    hide Enabled, Apply, Runs, After, Inv;
    DeliverNow(s, c);
    var none: seq<Action> := [];
    RunsCons(s, Deliver, none);
    var t, d := Apply(s, Deliver), s.mail[0];
    acts := Answer(t, d);
    if d != c {
      var more := Drain(After(t, acts), c);
      RunsConcat(t, acts, more);
      acts := acts + more;
    }
    RunsCons(s, Deliver, acts);
    acts := [Deliver] + acts;
  }

  /** No job is ever stuck: from every state the threads can get into, whatever wake-ups are spurious,
      whatever the other threads are in the middle of, and also after a shutdown has begun, an
      unanswered job has a continuation in which it is executed and answered. */
  lemma EveryJobCanBeAnswered(ss: seq<State>, acts: seq<Action>, i: nat, j: nat) returns (more: seq<Action>)
    requires IsRun(ss, acts) && i < |ss| && j < |ss[i].replies|
    ensures Runs(ss[i], more)
    ensures var t := After(ss[i], more); |t.runs| == |t.replies| > j && t.replies[j] == 1 && t.runs[j] == 1
  {
    RunInv(ss, acts, i);
    var s := ss[i];
    hide Runs, After, IsRun;
    more := Settle(s);
    var t := After(s, more);
    assert JobOk(t, j);
    if t.replies[j] == 0 {
      var c := t.owner[j];
      hide Inv;
      var some := Summon(t, c);
      RunsConcat(s, more, some);
      var rest := Drain(After(t, some), c);
      RunsConcat(s, more + some, rest);
      more := more + some + rest;
    }
    Answered(After(s, more), j);
  }

  lemma Answered(s: State, j: nat)
    requires Inv(s) && j < |s.replies| && s.replies[j] == 1
    ensures |s.runs| == |s.replies| && s.runs[j] == 1
  {
    assert JobOk(s, j);
  }
}
