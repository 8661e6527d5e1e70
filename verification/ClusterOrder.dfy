/**
 The order in which the scheduler serves its nodes: every queue and every worker's
 list is first in, first out, a node goes to its own queue, higher priorities come
 first, and a worker takes at most its batch.
 */
module ClusterOrder {
  import opened NodeWord
  import opened Cluster
  import opened ClusterInv
  import opened ClusterTheorems
  import opened ClusterWindows
  import opened ClusterLiveness

  // ----- one action on the lists

  predicate Kept(l: seq<NodeId>, m: seq<NodeId>) {
    m == l
  }

  predicate Joined(l: seq<NodeId>, m: seq<NodeId>) {
    |m| == |l| + 1 && forall i :: 0 <= i < |l| ==> m[i] == l[i]
  }

  predicate Left(l: seq<NodeId>, m: seq<NodeId>) {
    |m| == |l| - 1 && forall i :: 0 <= i < |m| ==> m[i] == l[i + 1]
  }

  /** A client step puts its own node behind its call's queue, or leaves every queue alone. */
  lemma QueueByClient(s: State, t: ThreadId, q: nat)
    requires Enabled(s, ClientStep(t)) && q < |s.queues|
    ensures q < |DoClient(s, t).queues| == |s.queues|
    ensures var l, m := s.queues[q].list, DoClient(s, t).queues[q].list;
            Kept(l, m) || (Joined(l, m) && s.clients[t].Enqueue? && s.clients[t].n == m[|l|] && s.clients[t].q == q)
  {
  }

  lemma QueueByWorker(s: State, w: WorkerId, q: nat)
    requires Enabled(s, WorkerStep(w)) && q < |s.queues|
    ensures q < |DoWorker(s, w).queues| == |s.queues|
    ensures var l, m := s.queues[q].list, DoWorker(s, w).queues[q].list;
            || Kept(l, m)
            || (Joined(l, m) && s.workers[w].pc == SignalPut(m[|l|]) && s.nodes[m[|l|]].queue == q)
            || (Left(l, m) && s.workers[w].pc == InQueue(q) && DoWorker(s, w).workers[w].pc == PopRead(q, l[0]))
  {
    if !s.workers[w].pc.InQueue? && !s.workers[w].pc.SignalPut? { QueueUntouched(s, w, q); }
  }

  lemma QueueUntouched(s: State, w: WorkerId, q: nat)
    requires Enabled(s, WorkerStep(w)) && q < |s.queues| && !s.workers[w].pc.InQueue? && !s.workers[w].pc.SignalPut?
    ensures q < |DoWorker(s, w).queues| == |s.queues| && DoWorker(s, w).queues[q].list == s.queues[q].list
  {
  }

  /** An attach gives the node its queue, idle and valid, and schedules it there. */
  lemma AttachTo(s: State, t: ThreadId, n: NodeId, q: nat)
    requires Enabled(s, Attach(t, n, q))
    ensures var u := Next(s, Attach(t, n, q));
            && n in u.nodes && u.nodes[n].queue == q && u.nodes[n].attached && u.queues == s.queues && u.workers == s.workers
            && Bits(u.nodes[n].word) == NODE_VALID | NODE_IDLE
            && t in u.clients && u.clients[t] == SchedRead(n, q, false)
  {
    SwapsChangeFlags(ATTACHED);
  }

  predicate Schedules(c: Client) {
    c.SchedRead? || c.SchedSwap? || c.Enqueue?
  }

  /** A schedule goes to the queue its node has when the schedule begins. */
  lemma CallQueue(s: State, a: Action, t: ThreadId)
    requires Inv(s) && Enabled(s, a) && t in Next(s, a).clients && Schedules(Next(s, a).clients[t])
    ensures var c := Next(s, a).clients[t];
            || (t in s.clients && Schedules(s.clients[t]) && s.clients[t].n == c.n && s.clients[t].q == c.q)
            || (c.n in Next(s, a).nodes && c.q == Next(s, a).nodes[c.n].queue && c.SchedRead?)
  {
    match a
    case ClientStep(u) => CallQueueByClient(s, u, t);
    case WorkerStep(w) => WorkerKeepsCalls(s, w);
    case _ =>
  }

  lemma CallQueueByClient(s: State, u: ThreadId, t: ThreadId)
    requires Enabled(s, ClientStep(u)) && t in DoClient(s, u).clients && Schedules(DoClient(s, u).clients[t])
    ensures var c := DoClient(s, u).clients[t];
            || (t in s.clients && Schedules(s.clients[t]) && s.clients[t].n == c.n && s.clients[t].q == c.q)
            || (c.n in DoClient(s, u).nodes && c.q == DoClient(s, u).nodes[c.n].queue && c.SchedRead?)
  {
  }

  lemma WorkerKeepsCalls(s: State, w: WorkerId)
    requires Enabled(s, WorkerStep(w))
    ensures DoWorker(s, w).clients == s.clients
  {
  }

  /**
   Whatever happens, a queue stays as it is, or one node joins it at its end, or its
   first node leaves.  The one that joins comes from a call on this queue, or is sent
   back to the queue it was attached to; the one that leaves goes to the worker inside.
   */
  lemma QueueStep(s: State, a: Action, q: nat)
    requires Enabled(s, a) && q < |s.queues|
    ensures q < |Next(s, a).queues| == |s.queues|
    ensures var l, m := s.queues[q].list, Next(s, a).queues[q].list;
            || Kept(l, m)
            || (Joined(l, m) && a.ClientStep? && s.clients[a.t].Enqueue? && s.clients[a.t].n == m[|l|] && s.clients[a.t].q == q)
            || (Joined(l, m) && a.WorkerStep? && s.workers[a.w].pc == SignalPut(m[|l|]) && s.nodes[m[|l|]].queue == q)
            || (Left(l, m) && l != [] && a.WorkerStep? && a.w < |s.workers| && s.workers[a.w].pc == InQueue(q)
                && Next(s, a).workers[a.w].pc == PopRead(q, l[0]))
  {
    hide DoClient, DoWorker;
    match a
    case ClientStep(t) => QueueByClient(s, t, q);
    case WorkerStep(w) => QueueByWorker(s, w, q);
    case _ =>
  }

  /** A worker's list grows at its end by the node just taken, and is run from its front. */
  lemma WorkerListStep(s: State, w: WorkerId)
    requires Inv(s) && Enabled(s, WorkerStep(w))
    ensures w < |DoWorker(s, w).workers|
    ensures var x, y := s.workers[w], DoWorker(s, w).workers[w];
            || (Kept(x.list, y.list) && (y.pc.InProc? && !x.pc.InProc? ==> x.list != [] && y.pc.n == x.list[0]))
            || (Joined(x.list, y.list) && x.pc.PopPut? && x.pc.n == y.list[|x.list|])
            || (Left(x.list, y.list) && x.pc == AfterProc(x.list[0]))
  {
    assert WorkerOk(s, w);
  }

  // ----- over runs

  /** How many nodes leave queue `q`. */
  ghost function Pops(s: State, acts: seq<Action>, q: nat): nat
    requires Runs(s, acts) && q < |s.queues|
    decreases |acts|
  {
    if acts == [] then 0
    else
      QueueStep(s, acts[0], q);
      (if |Next(s, acts[0]).queues[q].list| < |s.queues[q].list| then 1 else 0) + Pops(Next(s, acts[0]), acts[1..], q)
  }

  /** A queued node moves up by one with every node that leaves, and by nothing else: none overtakes it. */
  lemma {:induction false} MovesUp(s: State, acts: seq<Action>, q: nat, k: nat)
    requires Runs(s, acts) && q < |s.queues| && k < |s.queues[q].list| && Pops(s, acts, q) <= k
    ensures var l := s.queues[q].list; var p := Pops(s, acts, q);
            && q < |After(s, acts).queues| && k - p < |After(s, acts).queues[q].list|
            && After(s, acts).queues[q].list[k - p] == l[k]
    decreases |acts|
  {
    hide Enabled, Next;
    if acts != [] {
      QueueStep(s, acts[0], q);
      var t := Next(s, acts[0]);
      MovesUp(t, acts[1..], q, if |t.queues[q].list| < |s.queues[q].list| then k - 1 else k);
    }
  }

  /** The step takes `n` off queue `q`. */
  predicate Takes(s: State, a: Action, q: nat, n: NodeId) {
    && a.WorkerStep? && a.w < |s.workers| && s.workers[a.w].pc == InQueue(q)
    && q < |s.queues| && s.queues[q].list != [] && s.queues[q].list[0] == n
  }

  predicate Taken(s: State, acts: seq<Action>, q: nat, n: NodeId)
    requires Runs(s, acts)
    decreases |acts|
  {
    acts != [] && (Takes(s, acts[0], q, n) || Taken(Next(s, acts[0]), acts[1..], q, n))
  }

  ghost predicate Before(l: seq<NodeId>, m: NodeId, n: NodeId) {
    exists i, j :: 0 <= i < j < |l| && l[i] == m && l[j] == n
  }

  lemma BeforeStep(s: State, a: Action, q: nat, m: NodeId, n: NodeId)
    requires Inv(s) && Enabled(s, a) && q < |s.queues| && Before(s.queues[q].list, m, n)
    ensures q < |Next(s, a).queues|
    ensures !Takes(s, a, q, n)
    ensures !Takes(s, a, q, m) ==> Before(Next(s, a).queues[q].list, m, n)
  {
    hide Next, Enabled;
    QueueStep(s, a, q);
    assert QueueOk(s, q);
    var l, k := s.queues[q].list, Next(s, a).queues[q].list;
    var i, j :| 0 <= i < j < |l| && l[i] == m && l[j] == n;
    if Left(l, k) {
      if i > 0 { assert k[i - 1] == m && k[j - 1] == n; }
    } else {
      assert k[i] == m && k[j] == n;
    }
  }

  /** Of two nodes in one queue the one in front is taken first, whatever is triggered meanwhile. */
  lemma {:induction false} TakenInOrder(s: State, acts: seq<Action>, q: nat, m: NodeId, n: NodeId)
    requires Inv(s) && Runs(s, acts) && q < |s.queues| && Before(s.queues[q].list, m, n) && !Taken(s, acts, q, m)
    ensures !Taken(s, acts, q, n) && q < |After(s, acts).queues| && Before(After(s, acts).queues[q].list, m, n)
    decreases |acts|
  {
    hide Inv, Enabled, Next, Takes, Before;
    if acts != [] {
      NextInv(s, acts[0]);
      BeforeStep(s, acts[0], q, m, n);
      TakenInOrder(Next(s, acts[0]), acts[1..], q, m, n);
    }
  }

  // ----- batches

  /** No worker holds more than its batch, and while it takes nodes there is room for one more. */
  ghost predicate BatchesOk(s: State) {
    forall w {:trigger s.workers[w]} | 0 <= w < |s.workers| :: BatchOk(s.workers[w])
  }

  predicate BatchOk(x: Worker) {
    |x.list| <= x.batch && (HoldsMutex(x.pc) ==> |x.list| < x.batch)
  }

  lemma BatchByWorker(s: State, w: WorkerId)
    requires Inv(s) && Enabled(s, WorkerStep(w)) && BatchOk(s.workers[w])
    ensures w < |DoWorker(s, w).workers| && BatchOk(DoWorker(s, w).workers[w])
    ensures DoWorker(s, w).workers[w].batch == s.workers[w].batch
  {
    assert WorkerOk(s, w);
  }

  lemma BatchStep(s: State, a: Action)
    requires Inv(s) && Enabled(s, a) && BatchesOk(s)
    ensures BatchesOk(Next(s, a))
  {
    hide BatchOk, DoWorker;
    match a
    case WorkerStep(w) =>
      BatchByWorker(s, w);
      WorkerCount(s, w);
      forall v: nat | v < |s.workers| ensures BatchOk(DoWorker(s, w).workers[v]) {
        if v != w { WorkerTouchesItself(s, w, v); }
      }
    case ClientStep(_) => BatchByClient(s, a);
    case Spurious(w) => BatchAwake(s, w);
    case _ =>
  }

  lemma WorkerCount(s: State, w: WorkerId)
    requires Enabled(s, WorkerStep(w))
    ensures |DoWorker(s, w).workers| == |s.workers|
  {
  }

  lemma BatchByClient(s: State, a: Action)
    requires Enabled(s, a) && a.ClientStep? && BatchesOk(s)
    ensures BatchesOk(Next(s, a))
  {
  }

  lemma BatchAwake(s: State, w: WorkerId)
    requires Inv(s) && Enabled(s, Spurious(w)) && BatchesOk(s)
    ensures BatchesOk(Next(s, Spurious(w)))
  {
  }

  lemma {:induction false} BatchRun(s: State, acts: seq<Action>)
    requires Inv(s) && BatchesOk(s) && Runs(s, acts)
    ensures BatchesOk(After(s, acts))
    decreases |acts|
  {
    hide Inv, Next, Enabled, BatchesOk;
    if acts != [] {
      NextInv(s, acts[0]);
      BatchStep(s, acts[0]);
      BatchRun(Next(s, acts[0]), acts[1..]);
    }
  }

  /** In no reachable state has a worker taken more than its batch. */
  lemma BatchesKept(s: State)
    requires Reachable(s)
    ensures forall w | 0 <= w < |s.workers| :: |s.workers[w].list| <= s.workers[w].batch
  {
    hide Inv;
    var p: nat, b: seq<nat>, acts: seq<Action> :|
      && |b| > 0 && (forall i | 0 <= i < |b| :: b[i] > 0)
      && Runs(Start(p, b), acts) && After(Start(p, b), acts) == s;
    StartInv(p, b);
    BatchRun(Start(p, b), acts);
  }

  // ----- priorities

  /** A scan begins at the highest priority, and goes on for less than a batch until every queue was passed. */
  lemma ScanBounds(s: State, w: WorkerId)
    requires Inv(s) && Enabled(s, WorkerStep(w)) && BatchOk(s.workers[w])
    ensures w < |DoWorker(s, w).workers|
    ensures var x, y := s.workers[w], DoWorker(s, w).workers[w];
            && (HoldsMutex(y.pc) && !HoldsMutex(x.pc) ==> y.pc == Scan(0) && y.list == [])
            && (HoldsMutex(x.pc) && !HoldsMutex(y.pc) ==> |y.list| == y.batch || x.pc == Scan(|s.queues|))
            && (y.pc.Asleep? ==> x.pc == Scan(|s.queues|) && y.list == [])
  {
    assert WorkerOk(s, w);
  }

  /** The worker is inside one scan all along. */
  predicate ScansOn(s: State, acts: seq<Action>, w: WorkerId)
    requires Runs(s, acts)
    decreases |acts|
  {
    && w < |s.workers| && HoldsMutex(s.workers[w].pc)
    && (acts != [] ==> ScansOn(Next(s, acts[0]), acts[1..], w))
  }

  /** Queue `q` was empty at some point of the run. */
  predicate WasEmpty(s: State, acts: seq<Action>, q: nat)
    requires Runs(s, acts)
    decreases |acts|
  {
    || (q < |s.queues| && s.queues[q].list == [])
    || (acts != [] && WasEmpty(Next(s, acts[0]), acts[1..], q))
  }

  lemma ScanStep(s: State, a: Action, w: WorkerId)
    requires Inv(s) && Enabled(s, a) && w < |s.workers| && HoldsMutex(s.workers[w].pc)
    requires w < |Next(s, a).workers| && HoldsMutex(Next(s, a).workers[w].pc)
    ensures var x, y := s.workers[w].pc, Next(s, a).workers[w].pc;
            y.i == x.i || (y.i == x.i + 1 && x.i < |s.queues| && s.queues[x.i].list == [])
  {
    match a
    case WorkerStep(v) => if v == w { ScanByItself(s, w); } else { WorkerTouchesItself(s, v, w); }
    case ClientStep(_) => ScanByClient(s, a, w);
    case _ =>
  }

  lemma ScanByItself(s: State, w: WorkerId)
    requires Inv(s) && Enabled(s, WorkerStep(w)) && HoldsMutex(s.workers[w].pc)
    requires w < |DoWorker(s, w).workers| && HoldsMutex(DoWorker(s, w).workers[w].pc)
    ensures var x, y := s.workers[w].pc, DoWorker(s, w).workers[w].pc;
            y.i == x.i || (y.i == x.i + 1 && x.i < |s.queues| && s.queues[x.i].list == [])
  {
    assert WorkerOk(s, w);
  }

  lemma ScanByClient(s: State, a: Action, w: WorkerId)
    requires Enabled(s, a) && a.ClientStep? && w < |s.workers| && HoldsMutex(s.workers[w].pc)
    ensures w < |Next(s, a).workers| && Next(s, a).workers[w].pc == s.workers[w].pc
  {
  }

  /** A scan gets to a lower priority only past queues that it found empty on the way. */
  lemma {:induction false} HigherFirst(s: State, acts: seq<Action>, w: WorkerId, q: nat)
    requires Inv(s) && Runs(s, acts) && ScansOn(s, acts, w) && w < |After(s, acts).workers| && HoldsMutex(After(s, acts).workers[w].pc)
    requires s.workers[w].pc.i <= q < After(s, acts).workers[w].pc.i
    ensures WasEmpty(s, acts, q)
    decreases |acts|
  {
    hide Inv, Enabled, Next;
    if acts != [] {
      var t := Next(s, acts[0]);
      NextInv(s, acts[0]);
      ScanStep(s, acts[0], w);
      if q >= t.workers[w].pc.i { HigherFirst(t, acts[1..], w, q); }
    }
  }

  // ----- triggers

  /** An accepted trigger claims an idle node for its queue, or signals a running one and wakes a worker. */
  lemma AcceptedTrigger(s: State, t: ThreadId)
    requires Inv(s) && Enabled(s, ClientStep(t)) && s.clients[t].SchedSwap? && s.nodes[s.clients[t].n].word == s.clients[t].seen
    ensures var c, u := s.clients[t], DoClient(s, t); var x, y := s.nodes[c.n].word, u.nodes[c.n].word;
            && t in u.clients
            && (x.idle ==> Bits(y) == Bits(x) ^ (NODE_IDLE | NODE_WAIT) && u.clients[t] == Enqueue(c.n, c.q, c.det))
            && (!x.idle ==> Bits(y) == Bits(x) | NODE_SIGNAL && u.clients[t] == Wake(c.n, c.det, false, 0))
  {
    assert ClientOk(s, t) && NodeOk(s, s.clients[t].n);
    SwapsChangeFlags(s.nodes[s.clients[t].n].word);
  }

  /** The wake-up stops at the first worker marked idle from where it is, signals it if it sleeps, and touches no other. */
  lemma WakesFirst(s: State, t: ThreadId)
    requires Enabled(s, ClientStep(t)) && s.clients[t].Wake? && s.clients[t].i < |s.workers|
    ensures var c, u := s.clients[t], DoClient(s, t);
            && |u.workers| == |s.workers| && (forall v | 0 <= v < |s.workers| && v != c.i :: u.workers[v] == s.workers[v])
            && (s.workers[c.i].idle && s.workers[c.i].pc.Asleep? ==> u.workers[c.i].pc == Asleep(true))
            && (s.workers[c.i].idle || c.i + 1 == |s.workers| ==> t !in u.clients || u.clients[t] == DetachWait(c.n))
            && (!s.workers[c.i].idle ==> u.workers == s.workers)
            && (!s.workers[c.i].idle && c.i + 1 < |s.workers| ==> t in u.clients && u.clients[t] == c.(i := c.i + 1))
  {
  }
}
