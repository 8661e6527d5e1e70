/**
 The cluster scheduler as a transition system.  Any number of client threads
 attach, trigger and detach nodes while a fixed set of workers takes nodes from
 the priority queues and runs them.  One action is one access to shared memory:
 a read of a node word, a compare-and-swap, a lock section, a semaphore or
 condition-variable operation.  Work on data that only one thread can reach is
 joined to the neighbouring action of that thread.
 */
module Cluster {
  import opened NodeWord

  type NodeId = nat
  type ThreadId = nat
  type WorkerId = nat

  /** Who is responsible for a node; a history value that no action tests. */
  datatype Place =
    | Resting                    // idle, in no list
    | Entering(t: ThreadId)      // claimed by a trigger, not yet in its queue
    | Queued(q: nat)
    | Popped(w: WorkerId)        // off the queue, word not yet swapped
    | Taken(w: WorkerId)         // word swapped, not yet in the worker's list
    | Held(w: WorkerId)          // in the worker's list
    | Leaving(w: WorkerId)       // off the worker's list, word not yet swapped
    | Requeuing(w: WorkerId)     // sent back, not yet in its queue
    | Closing(w: WorkerId)       // found invalid, semaphore not yet posted
    | Closed

  /**
   `sem` is the detach semaphore.  `place`, `posts`, `takes` and `owed` are
   history: posts and waits on the semaphore since the last attach, and whether
   a trigger was accepted after the last start of the node's function.
   */
  datatype Node = Node(word: Word, attached: bool, sem: nat, queue: nat,
                       place: Place, posts: nat, takes: nat, owed: bool)

  /** `holder` is the worker inside a lock section that spans several actions. */
  datatype Queue = Queue(list: seq<NodeId>, count: int, holder: Holder)
  datatype Holder = Free | By(w: WorkerId)

  datatype WorkerPc =
    | Top                                        // before the thread mutex
    | Scan(i: nat)                               // about to lock queue i
    | InQueue(i: nat)                            // holds the lock of queue i
    | PopRead(i: nat, n: NodeId)
    | PopSwap(i: nat, n: NodeId, seen: Word)
    | PopPut(i: nat, n: NodeId)
    | Asleep(woken: bool)
    | Loop                                       // top of the run loop
    | InProc(n: NodeId)
    | AfterProc(n: NodeId)                       // about to read the word
    | SignalSwap(n: NodeId, st: Word)
    | SignalPut(n: NodeId)
    | IdleRead(n: NodeId)
    | IdleSwap(n: NodeId, seen: Word)
    | CloseMark(n: NodeId)
    | ClosePost(n: NodeId)

  /** `idle` is WORKER_IDLE; `taken` is the local count of one scan. */
  datatype Worker = Worker(pc: WorkerPc, idle: bool, batch: nat, taken: nat,
                           workCount: int, list: seq<NodeId>)

  /** A client inside a call on node `n`; `det` tells the schedule of a detach. */
  datatype Client =
    | SchedRead(n: NodeId, q: nat, det: bool)
    | SchedSwap(n: NodeId, q: nat, det: bool, seen: Word)
    | Enqueue(n: NodeId, q: nat, det: bool)
    | Wake(n: NodeId, det: bool, queued: bool, i: nat)
    | DetachClear(n: NodeId)
    | DetachWait(n: NodeId)

  datatype State = State(nodes: map<NodeId, Node>, queues: seq<Queue>, workers: seq<Worker>,
                         clients: map<ThreadId, Client>)

  datatype Action =
    | Attach(t: ThreadId, n: NodeId, q: nat)
    | Trigger(t: ThreadId, n: NodeId)
    | Detach(t: ThreadId, n: NodeId)
    | ClientStep(t: ThreadId)
    | WorkerStep(w: WorkerId)
    | Spurious(w: WorkerId)                      // wake-up without a signal

  // ----- starting state

  function StartWorker(batch: nat): Worker {
    Worker(Top, true, batch, 0, 0, [])
  }

  /** One queue a priority; batch sizes as the cluster was created with. */
  function Start(priorities: nat, batches: seq<nat>): State {
    State(map[], seq(priorities, _ => Queue([], 0, Free)),
          seq(|batches|, i requires 0 <= i < |batches| => StartWorker(batches[i])), map[])
  }

  // ----- updates

  function SetNode(s: State, n: NodeId, x: Node): State {
    s.(nodes := s.nodes[n := x])
  }

  function SetClient(s: State, t: ThreadId, c: Client): State {
    s.(clients := s.clients[t := c])
  }

  function SetWorker(s: State, w: WorkerId, x: Worker): State
    requires w < |s.workers|
  {
    s.(workers := s.workers[w := x])
  }

  function SetQueue(s: State, q: nat, x: Queue): State
    requires q < |s.queues|
  {
    s.(queues := s.queues[q := x])
  }

  function Append(q: Queue, n: NodeId): Queue {
    q.(list := q.list + [n], count := q.count + 1)
  }

  /** End of a schedule call: a detach goes on to its semaphore. */
  function Return(s: State, t: ThreadId, n: NodeId, det: bool): State {
    if det then SetClient(s, t, DetachWait(n)) else s.(clients := s.clients - {t})
  }

  // ----- guards

  /** A detach of the node that has not returned. */
  predicate InDetach(c: Client, n: NodeId) {
    c.n == n && (c.DetachClear? || c.DetachWait? || c.det)
  }

  /** A detach of the node that has cleared its valid flag. */
  predicate PastClear(c: Client, n: NodeId) {
    InDetach(c, n) && !c.DetachClear?
  }

  predicate HoldsMutex(pc: WorkerPc) {
    pc.Scan? || pc.InQueue? || pc.PopRead? || pc.PopSwap? || pc.PopPut?
  }

  predicate OnNode(pc: WorkerPc) {
    pc.PopRead? || pc.PopSwap? || pc.PopPut? || pc.InProc? || pc.AfterProc? || pc.SignalSwap? || pc.SignalPut?
    || pc.IdleRead? || pc.IdleSwap? || pc.CloseMark? || pc.ClosePost?
  }

  /** The worker waits for a queue lock or for a signal. */
  predicate Blocked(s: State, w: WorkerId)
    requires w < |s.workers|
  {
    var pc := s.workers[w].pc;
    || (pc.Scan? && pc.i < |s.queues| && s.queues[pc.i].holder != Free)
    || (pc.SignalPut? && pc.n in s.nodes && s.nodes[pc.n].queue < |s.queues|
        && s.queues[s.nodes[pc.n].queue].holder != Free)
    || pc == Asleep(false)
  }

  /** What the worker refers to exists; holds in every reachable state. */
  predicate Placed(s: State, w: WorkerId)
    requires w < |s.workers|
  {
    var pc := s.workers[w].pc;
    && (OnNode(pc) ==> pc.n in s.nodes)
    && (pc.SignalPut? ==> s.nodes[pc.n].queue < |s.queues|)
    && (pc.InQueue? || pc.PopRead? || pc.PopSwap? || pc.PopPut? ==> pc.i < |s.queues|)
    && (pc.InQueue? && s.queues[pc.i].list != [] ==> s.queues[pc.i].list[0] in s.nodes)
    && (pc.AfterProc? ==> s.workers[w].list != [])
    && (pc.Loop? && s.workers[w].list != [] ==> s.workers[w].list[0] in s.nodes)
  }

  /**
   An action can be taken.  What clients must respect is in the first three
   cases: a thread makes one call at a time, only nodes that were attached are
   triggered or detached, and a node is attached again only once it is detached
   and the detach has returned.
   */
  predicate Enabled(s: State, a: Action) {
    match a
    case Attach(t, n, q) =>
      && t !in s.clients && q < |s.queues|
      && (n in s.nodes ==> !s.nodes[n].attached && forall u <- s.clients :: !InDetach(s.clients[u], n))
    case Trigger(t, n) => t !in s.clients && n in s.nodes
    case Detach(t, n) => t !in s.clients && n in s.nodes
    case ClientStep(t) =>
      && t in s.clients
      && var c := s.clients[t];
      && c.n in s.nodes
      && (c.Enqueue? ==> c.q < |s.queues| && s.queues[c.q].holder == Free)
      && (c.Wake? && c.i < |s.workers| ==> !HoldsMutex(s.workers[c.i].pc))
      && (c.DetachWait? ==> s.nodes[c.n].sem > 0)
    case WorkerStep(w) => w < |s.workers| && !Blocked(s, w) && Placed(s, w)
    case Spurious(w) =>
      w < |s.workers| && s.workers[w].pc.Asleep?
  }

  // ----- clients

  /** The plain stores of an attach, then its first schedule. */
  function DoAttach(s: State, t: ThreadId, n: NodeId, q: nat): State {
    var sem := if n in s.nodes then s.nodes[n].sem else 0;
    SetClient(SetNode(s, n, Node(ATTACHED, true, sem, q, Resting, 0, 0, false)), t, SchedRead(n, q, false))
  }

  function DoDetach(s: State, t: ThreadId, n: NodeId): State
    requires n in s.nodes
  {
    if s.nodes[n].attached then SetClient(s, t, DetachClear(n)) else s
  }

  function DoSchedRead(s: State, t: ThreadId, c: Client): State
    requires c.SchedRead? && c.n in s.nodes
  {
    var x := s.nodes[c.n];
    if x.word.wait then
      Return(SetNode(s, c.n, x.(owed := true)), t, c.n, c.det)
    else
      SetClient(s, t, SchedSwap(c.n, c.q, c.det, x.word))
  }

  function DoSchedSwap(s: State, t: ThreadId, c: Client): State
    requires c.SchedSwap? && c.n in s.nodes
  {
    var x := s.nodes[c.n];
    if x.word != c.seen then
      SetClient(s, t, SchedRead(c.n, c.q, c.det))
    else if c.seen.idle then
      SetClient(SetNode(s, c.n, x.(word := IdleToWait(c.seen), place := Entering(t), owed := true)),
                t, Enqueue(c.n, c.q, c.det))
    else if c.seen.run then
      SetClient(SetNode(s, c.n, x.(word := SetSignal(c.seen), owed := true)), t, Wake(c.n, c.det, false, 0))
    else
      Return(SetNode(s, c.n, x.(word := ZERO)), t, c.n, c.det)
  }

  function DoEnqueue(s: State, t: ThreadId, c: Client): State
    requires c.Enqueue? && c.n in s.nodes && c.q < |s.queues|
  {
    var x := s.nodes[c.n];
    SetClient(SetQueue(SetNode(s, c.n, x.(place := Queued(c.q))), c.q, Append(s.queues[c.q], c.n)),
              t, Wake(c.n, c.det, true, 0))
  }

  /** A signal is lost on a worker that is not waiting. */
  function Signalled(x: Worker): Worker {
    if x.pc.Asleep? then x.(pc := Asleep(true)) else x
  }

  function DoWake(s: State, t: ThreadId, c: Client): State
    requires c.Wake?
  {
    if c.i >= |s.workers| then Return(s, t, c.n, c.det)
    else if s.workers[c.i].idle then
      Return(SetWorker(s, c.i, Signalled(s.workers[c.i])), t, c.n, c.det)
    else if c.i + 1 < |s.workers| then SetClient(s, t, c.(i := c.i + 1))
    else Return(s, t, c.n, c.det)
  }

  function DoClear(s: State, t: ThreadId, c: Client): State
    requires c.DetachClear? && c.n in s.nodes
  {
    var x := s.nodes[c.n];
    SetClient(SetNode(s, c.n, x.(word := ClearValid(x.word))), t, SchedRead(c.n, x.queue, true))
  }

  function DoWait(s: State, t: ThreadId, c: Client): State
    requires c.DetachWait? && c.n in s.nodes && s.nodes[c.n].sem > 0
  {
    var x := s.nodes[c.n];
    SetNode(s, c.n, x.(sem := x.sem - 1, takes := x.takes + 1)).(clients := s.clients - {t})
  }

  function DoClient(s: State, t: ThreadId): State
    requires Enabled(s, ClientStep(t))
  {
    var c := s.clients[t];
    match c
    case SchedRead(_, _, _) => DoSchedRead(s, t, c)
    case SchedSwap(_, _, _, _) => DoSchedSwap(s, t, c)
    case Enqueue(_, _, _) => DoEnqueue(s, t, c)
    case Wake(_, _, _, _) => DoWake(s, t, c)
    case DetachClear(_) => DoClear(s, t, c)
    case DetachWait(_) => DoWait(s, t, c)
  }

  // ----- workers

  function At(s: State, w: WorkerId, pc: WorkerPc): State
    requires w < |s.workers|
  {
    SetWorker(s, w, s.workers[w].(pc := pc))
  }

  function DoScan(s: State, w: WorkerId, i: nat): State
    requires w < |s.workers|
  {
    var x := s.workers[w];
    if i < |s.queues| then
      At(SetQueue(s, i, s.queues[i].(holder := By(w))), w, InQueue(i))
    else if x.taken == 0 then
      SetWorker(s, w, x.(idle := true, pc := Asleep(false)))
    else
      At(s, w, Loop)
  }

  function DoPop(s: State, w: WorkerId, i: nat): State
    requires w < |s.workers| && i < |s.queues|
    requires s.queues[i].list != [] ==> s.queues[i].list[0] in s.nodes
  {
    var q := s.queues[i];
    if q.list == [] then
      At(SetQueue(s, i, q.(holder := Free)), w, Scan(i + 1))
    else
      var n := q.list[0];
      At(SetQueue(SetNode(s, n, s.nodes[n].(place := Popped(w))), i, q.(list := q.list[1..], count := q.count - 1)),
         w, PopRead(i, n))
  }

  function DoPopSwap(s: State, w: WorkerId, i: nat, n: NodeId, seen: Word): State
    requires w < |s.workers| && n in s.nodes
  {
    var x := s.nodes[n];
    if x.word != seen then At(s, w, PopRead(i, n))
    else At(SetNode(s, n, x.(word := WaitToRun(seen), place := Taken(w))), w, PopPut(i, n))
  }

  function DoPopPut(s: State, w: WorkerId, i: nat, n: NodeId): State
    requires w < |s.workers| && n in s.nodes && i < |s.queues|
  {
    var x := s.workers[w];
    var more := x.taken + 1 < x.batch;
    SetWorker(SetQueue(SetNode(s, n, s.nodes[n].(place := Held(w))), i, s.queues[i].(holder := Free)), w,
              x.(list := x.list + [n], workCount := x.workCount + 1, taken := x.taken + 1,
                 pc := if more then Scan(i) else Loop))
  }

  function DoLoop(s: State, w: WorkerId): State
    requires w < |s.workers|
    requires s.workers[w].list != [] ==> s.workers[w].list[0] in s.nodes
  {
    var x := s.workers[w];
    if x.list == [] then At(s, w, Top)
    else
      var n := x.list[0];
      At(SetNode(s, n, s.nodes[n].(owed := false)), w, InProc(n))
  }

  /** The read that decides what becomes of the node after its function ran. */
  function DoAfterProc(s: State, w: WorkerId, n: NodeId): State
    requires w < |s.workers| && n in s.nodes && s.workers[w].list != []
  {
    var x := s.workers[w].(list := s.workers[w].list[1..]);
    var st := s.nodes[n].word;
    if !st.valid then
      SetWorker(SetNode(s, n, s.nodes[n].(place := Closing(w))), w, x.(pc := CloseMark(n)))
    else if st.signal then
      SetWorker(SetNode(s, n, s.nodes[n].(place := Leaving(w))), w, x.(pc := SignalSwap(n, st)))
    else
      SetWorker(SetNode(s, n, s.nodes[n].(place := Leaving(w))), w, x.(pc := IdleRead(n)))
  }

  /** The expected word is never read again when this swap fails. */
  function DoSignalSwap(s: State, w: WorkerId, n: NodeId, st: Word): State
    requires w < |s.workers| && n in s.nodes
  {
    var x := s.nodes[n];
    if x.word != st then s
    else At(SetNode(s, n, x.(word := SignalToWait(st), place := Requeuing(w))), w, SignalPut(n))
  }

  function Done(x: Worker): Worker {
    x.(pc := Loop, workCount := x.workCount - 1)
  }

  function DoSignalPut(s: State, w: WorkerId, n: NodeId): State
    requires w < |s.workers| && n in s.nodes && s.nodes[n].queue < |s.queues|
  {
    var q := s.nodes[n].queue;
    SetWorker(SetQueue(SetNode(s, n, s.nodes[n].(place := Queued(q))), q, Append(s.queues[q], n)),
              w, Done(s.workers[w]))
  }

  function DoIdleSwap(s: State, w: WorkerId, n: NodeId, seen: Word): State
    requires w < |s.workers| && n in s.nodes
  {
    var x := s.nodes[n];
    if x.word != seen then At(s, w, IdleRead(n))
    else SetWorker(SetNode(s, n, x.(word := RunToIdle(seen), place := Resting)), w, Done(s.workers[w]))
  }

  function DoClosePost(s: State, w: WorkerId, n: NodeId): State
    requires w < |s.workers| && n in s.nodes
  {
    var x := s.nodes[n];
    SetWorker(SetNode(s, n, x.(sem := x.sem + 1, posts := x.posts + 1, place := Closed)),
              w, Done(s.workers[w]))
  }

  function DoWorker(s: State, w: WorkerId): State
    requires Enabled(s, WorkerStep(w))
  {
    var x := s.workers[w];
    match x.pc
    case Top => SetWorker(s, w, x.(pc := Scan(0), taken := 0))
    case Scan(i) => DoScan(s, w, i)
    case InQueue(i) => DoPop(s, w, i)
    case PopRead(i, n) => At(s, w, PopSwap(i, n, s.nodes[n].word))
    case PopSwap(i, n, seen) => DoPopSwap(s, w, i, n, seen)
    case PopPut(i, n) => DoPopPut(s, w, i, n)
    case Asleep(_) => SetWorker(s, w, x.(idle := false, pc := Loop))
    case Loop => DoLoop(s, w)
    case InProc(n) => At(s, w, AfterProc(n))
    case AfterProc(n) => DoAfterProc(s, w, n)
    case SignalSwap(n, st) => DoSignalSwap(s, w, n, st)
    case SignalPut(n) => DoSignalPut(s, w, n)
    case IdleRead(n) => At(s, w, IdleSwap(n, s.nodes[n].word))
    case IdleSwap(n, seen) => DoIdleSwap(s, w, n, seen)
    case CloseMark(n) => At(SetNode(s, n, s.nodes[n].(attached := false)), w, ClosePost(n))
    case ClosePost(n) => DoClosePost(s, w, n)
  }

  // ----- runs

  function Next(s: State, a: Action): State
    requires Enabled(s, a)
  {
    match a
    case Attach(t, n, q) => DoAttach(s, t, n, q)
    case Trigger(t, n) => SetClient(s, t, SchedRead(n, s.nodes[n].queue, false))
    case Detach(t, n) => DoDetach(s, t, n)
    case ClientStep(t) => DoClient(s, t)
    case WorkerStep(w) => DoWorker(s, w)
    case Spurious(w) => SetWorker(s, w, s.workers[w].(idle := false, pc := Loop))
  }

  /** The actions can be taken one after the other from `s`. */
  predicate Runs(s: State, acts: seq<Action>)
    decreases |acts|
  {
    acts == [] || (Enabled(s, acts[0]) && Runs(Next(s, acts[0]), acts[1..]))
  }

  function After(s: State, acts: seq<Action>): State
    requires Runs(s, acts)
    decreases |acts|
  {
    if acts == [] then s else After(Next(s, acts[0]), acts[1..])
  }

  /** Some client behaviour and some interleaving lead to `s`. */
  ghost predicate Reachable(s: State) {
    exists p: nat, b: seq<nat>, acts: seq<Action> {:trigger Runs(Start(p, b), acts)} ::
      && |b| > 0 && (forall i | 0 <= i < |b| :: b[i] > 0)
      && Runs(Start(p, b), acts) && After(Start(p, b), acts) == s
  }
}
