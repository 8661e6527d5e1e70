/**
 What goes on and what does not: a queued node is on its way to a run unless every
 worker sleeps or hangs, a lost trigger stays lost until the next schedule, and a
 detach behind it waits as long.
 */
module ClusterProgress {
  import opened NodeWord
  import opened Cluster
  import opened ClusterInv
  import opened ClusterTheorems
  import opened ClusterWindows

  // ----- queued nodes

  ghost predicate HangsOnSome(s: State, w: WorkerId) {
    exists n :: Stuck(s, w, n)
  }

  ghost predicate WorkersGoOn(s: State) {
    exists w :: Enabled(s, WorkerStep(w)) && Next(s, WorkerStep(w)) != s
  }

  /** A worker, or a thread waking one, can take a step that changes something. */
  ghost predicate GoesOn(s: State) {
    || WorkersGoOn(s)
    || (exists t <- s.clients :: WakePending(s.clients[t]) && Enabled(s, ClientStep(t)) && Next(s, ClientStep(t)) != s)
  }

  /** Every worker sleeps unsignalled or retries a swap that cannot succeed, and nobody is about to wake one. */
  ghost predicate Hung(s: State) {
    && (forall w | 0 <= w < |s.workers| :: s.workers[w].pc == Asleep(false) || HangsOnSome(s, w))
    && (forall t <- s.clients :: !WakePending(s.clients[t]))
  }

  /** A worker's step changes something exactly when it is not the retry of a swap that cannot succeed. */
  lemma StepChanges(s: State, w: WorkerId)
    requires Inv(s) && Enabled(s, WorkerStep(w))
    ensures Next(s, WorkerStep(w)) == s <==> HangsOnSome(s, w)
  {
    var pc := s.workers[w].pc;
    if pc.SignalSwap? {
      assert WorkerOk(s, w);
      assert s.nodes[pc.n].word != pc.st ==> Stuck(s, w, pc.n);
    } else {
      assert Next(s, WorkerStep(w)).workers[w].pc != pc;
    }
  }

  /** A worker that neither sleeps nor hangs goes on, or the holder of the lock it needs does. */
  lemma WorkerGoesOn(s: State, w: WorkerId)
    requires Reachable(s) && w < |s.workers| && s.workers[w].pc != Asleep(false) && !HangsOnSome(s, w)
    ensures WorkersGoOn(s)
  {
    ReachableInv(s);
    OnlyLocksBlock(s, w);
    if Blocked(s, w) {
      var pc := s.workers[w].pc;
      var i := if pc.Scan? then pc.i else s.nodes[pc.n].queue;
      HolderGoesOn(s, i);
      assert QueueOk(s, i);
      StepChanges(s, s.queues[i].holder.w);
    } else {
      StepChanges(s, w);
    }
  }

  lemma WakerGoesOn(s: State, t: ThreadId)
    requires Reachable(s) && t in s.clients && WakePending(s.clients[t])
    ensures GoesOn(s)
  {
    ReachableInv(s);
    var c := s.clients[t];
    assert ClientOk(s, t);
    if HoldsMutex(s.workers[c.i].pc) {
      WorkerGoesOn(s, c.i);
    } else {
      assert Enabled(s, ClientStep(t));
      WakeChanges(s, t);
    }
  }

  lemma WakeChanges(s: State, t: ThreadId)
    requires t in s.clients && s.clients[t].Wake? && Enabled(s, ClientStep(t))
    ensures Next(s, ClientStep(t)).clients != s.clients
  {
  }

  /** In every reachable state somebody goes on, exactly when the workers do not all sleep or hang. */
  lemma GoesOnIff(s: State)
    requires Reachable(s)
    ensures GoesOn(s) <==> !Hung(s)
  {
    ReachableInv(s);
    if w: nat :| w < |s.workers| && s.workers[w].pc != Asleep(false) && !HangsOnSome(s, w) {
      WorkerGoesOn(s, w);
    } else if t :| t in s.clients && WakePending(s.clients[t]) {
      WakerGoesOn(s, t);
    } else {
      forall w | Enabled(s, WorkerStep(w)) ensures Next(s, WorkerStep(w)) == s {
        StepChanges(s, w);
      }
    }
  }

  /** While a node is queued somebody goes on towards running it, unless a detach has made a worker hang. */
  lemma NoDeadlock(s: State, q: nat)
    requires Reachable(s) && q < |s.queues| && s.queues[q].list != []
    ensures GoesOn(s) || (Hung(s) && exists w, n :: Stuck(s, w, n))
  {
    GoesOnIff(s);
    if Hung(s) && forall w | 0 <= w < |s.workers| :: s.workers[w].pc == Asleep(false) {
      NoMissedWakeup(s);
    }
    if Hung(s) {
      var w: nat :| w < |s.workers| && s.workers[w].pc != Asleep(false);
      var n :| Stuck(s, w, n);
    }
  }

  // ----- lost triggers

  /** A schedule of `n` swaps its word. */
  predicate Reschedules(s: State, a: Action, n: NodeId) {
    && a.ClientStep? && a.t in s.clients && s.clients[a.t].SchedSwap? && s.clients[a.t].n == n
    && n in s.nodes && s.nodes[n].word == s.clients[a.t].seen
  }

  predicate NeverReschedules(s: State, acts: seq<Action>, n: NodeId)
    requires Runs(s, acts)
    decreases |acts|
  {
    acts == [] || (!Reschedules(s, acts[0], n) && NeverReschedules(Next(s, acts[0]), acts[1..], n))
  }

  /** A lost trigger stays lost until a schedule of the node, whatever else happens, and ends with it. */
  lemma LostStep(s: State, a: Action, n: NodeId)
    requires Inv(s) && Enabled(s, a) && Lost(s, n)
    ensures Lost(Next(s, a), n) <==> !Reschedules(s, a, n)
    ensures Reschedules(s, a, n) ==> Next(s, a).nodes[n].word.wait
    ensures !Reschedules(s, a, n) && !s.nodes[n].word.valid ==> Next(s, a).nodes[n] == s.nodes[n]
  {
    Local(s, a, n);
    match a
    case ClientStep(_) => LostByClient(s, a, n);
    case WorkerStep(w) => LostByWorker(s, w, n);
    case _ =>
  }

  lemma LostByClient(s: State, a: Action, n: NodeId)
    requires Inv(s) && Enabled(s, a) && Lost(s, n) && a.ClientStep?
    ensures Lost(Next(s, a), n) <==> !Reschedules(s, a, n)
    ensures Reschedules(s, a, n) ==> Next(s, a).nodes[n].word.wait
    ensures !Reschedules(s, a, n) && !s.nodes[n].word.valid ==> Next(s, a).nodes[n] == s.nodes[n]
  {
    Local(s, a, n);
  }

  lemma LostByWorker(s: State, w: WorkerId, n: NodeId)
    requires Inv(s) && Enabled(s, WorkerStep(w)) && Lost(s, n)
    ensures Lost(DoWorker(s, w), n) && DoWorker(s, w).nodes[n] == s.nodes[n]
  {
    Local(s, WorkerStep(w), n);
  }

  lemma NotRunning(s: State, n: NodeId)
    requires Inv(s) && Lost(s, n)
    ensures forall w: WorkerId :: !Running(s, n, w)
  {
    assert NodeOk(s, n);
    forall w: WorkerId ensures !Running(s, n, w) {
      if w < |s.workers| {
        assert WorkerOk(s, w);
        assert Running(s, n, w) ==> InPlace(s, s.workers[w].list[0], Held(w));
      }
    }
  }

  /** Over any run without such a schedule the node stays idle and signalled, and its function never runs. */
  lemma {:induction false} LostForGood(s: State, acts: seq<Action>, n: NodeId)
    requires Inv(s) && Lost(s, n) && Runs(s, acts) && NeverReschedules(s, acts, n)
    ensures var t := After(s, acts); Lost(t, n) && forall w: WorkerId :: !Running(t, n, w)
    decreases |acts|
  {
    hide Lost, Running, Reschedules;
    if acts == [] {
      NotRunning(s, n);
    } else {
      NextInv(s, acts[0]);
      LostStep(s, acts[0], n);
      LostForGood(Next(s, acts[0]), acts[1..], n);
    }
  }

  // ----- detaches behind a lost trigger

  /** A detach waits on a node that is idle and signalled. */
  predicate WaitsInVain(s: State, t: ThreadId, n: NodeId) {
    Lost(s, n) && !s.nodes[n].word.valid && s.nodes[n].sem == 0 && t in s.clients && s.clients[t] == DetachWait(n)
  }

  lemma WaitStep(s: State, a: Action, t: ThreadId, n: NodeId)
    requires Inv(s) && Enabled(s, a) && WaitsInVain(s, t, n) && !Reschedules(s, a, n)
    ensures WaitsInVain(Next(s, a), t, n)
  {
    LostStep(s, a, n);
  }

  /** It waits as long as nobody schedules the node again. */
  lemma {:induction false} WaitsOn(s: State, acts: seq<Action>, t: ThreadId, n: NodeId)
    requires Inv(s) && WaitsInVain(s, t, n) && Runs(s, acts) && NeverReschedules(s, acts, n)
    ensures WaitsInVain(After(s, acts), t, n)
    decreases |acts|
  {
    hide WaitsInVain, Reschedules;
    if acts != [] {
      NextInv(s, acts[0]);
      WaitStep(s, acts[0], t, n);
      WaitsOn(Next(s, acts[0]), acts[1..], t, n);
    }
  }

  // ----- both are reachable

  const CUT := ClearValid(RUNNING)

  // a detach after the deciding read of the idle branch

  lemma CutIdle() returns (s: State)
    ensures Reachable(s)
    ensures s == Tiny(Node(CUT, true, 0, 0, Leaving(0), 0, 0, false), [], Free, IdleRead(0), 1, [], 1, map[1 := SchedRead(0, 0, true)])
  {
    s := Idle0();
    s := Go(s, Detach(1, 0),
            Tiny(Node(RUNNING, true, 0, 0, Leaving(0), 0, 0, false), [], Free, IdleRead(0), 1, [], 1, map[1 := DetachClear(0)]));
    s := Go(s, ClientStep(1),
            Tiny(Node(CUT, true, 0, 0, Leaving(0), 0, 0, false), [], Free, IdleRead(0), 1, [], 1, map[1 := SchedRead(0, 0, true)]));
  }

  lemma CutMarked() returns (s: State)
    ensures Reachable(s)
    ensures s == Tiny(Node(SetSignal(CUT), true, 0, 0, Leaving(0), 0, 0, true), [], Free, IdleRead(0), 1, [], 1, map[1 := Wake(0, true, false, 0)])
  {
    s := CutIdle();
    s := Go(s, ClientStep(1),
            Tiny(Node(CUT, true, 0, 0, Leaving(0), 0, 0, false), [], Free, IdleRead(0), 1, [], 1, map[1 := SchedSwap(0, 0, true, CUT)]));
    s := Go(s, ClientStep(1),
            Tiny(Node(SetSignal(CUT), true, 0, 0, Leaving(0), 0, 0, true), [], Free, IdleRead(0), 1, [], 1, map[1 := Wake(0, true, false, 0)]));
  }

  lemma CutWoken() returns (s: State)
    ensures Reachable(s)
    ensures s == Tiny(Node(SetSignal(CUT), true, 0, 0, Leaving(0), 0, 0, true), [], Free, IdleRead(0), 1, [], 1, map[1 := DetachWait(0)])
  {
    s := CutMarked();
    s := Go(s, ClientStep(1),
            Tiny(Node(SetSignal(CUT), true, 0, 0, Leaving(0), 0, 0, true), [], Free, IdleRead(0), 1, [], 1, map[1 := DetachWait(0)]));
  }

  lemma CutWaiting() returns (s: State)
    ensures Reachable(s)
    ensures s == Tiny(Node(RunToIdle(SetSignal(CUT)), true, 0, 0, Resting, 0, 0, true), [], Free, Loop, 1, [], 0, map[1 := DetachWait(0)])
  {
    s := CutWoken();
    s := Go(s, WorkerStep(0),
            Tiny(Node(SetSignal(CUT), true, 0, 0, Leaving(0), 0, 0, true), [], Free, IdleSwap(0, SetSignal(CUT)), 1, [], 1, map[1 := DetachWait(0)]));
    s := Go(s, WorkerStep(0),
            Tiny(Node(RunToIdle(SetSignal(CUT)), true, 0, 0, Resting, 0, 0, true), [], Free, Loop, 1, [], 0, map[1 := DetachWait(0)]));
  }

  /** A detach in the window of the idle branch waits on a node nobody will run. */
  lemma DetachCanWaitInVain()
    ensures exists s :: Reachable(s) && WaitsInVain(s, 1, 0) && s.clients.Keys == {1}
  {
    var s := CutWaiting();
    assert WaitsInVain(s, 1, 0);
  }

  // a second node queued behind a hanging worker

  const HANGING := ClearValid(SIGNALLED)

  /** Node 0 in the hands of the hanging worker, its detach waiting, node 1 in the state `x`. */
  function Pair(x: Node, list: seq<NodeId>, c: map<ThreadId, Client>): State {
    State(map[0 := Node(HANGING, true, 0, 0, Leaving(0), 0, 0, true), 1 := x], [Queue(list, |list|, Free)],
          [Worker(SignalSwap(0, SIGNALLED), true, 1, 1, 1, [])], c[2 := DetachWait(0)])
  }

  lemma Waiting0() returns (s: State)
    ensures Reachable(s)
    ensures s == Tiny(Node(HANGING, true, 0, 0, Leaving(0), 0, 0, true), [], Free, SignalSwap(0, SIGNALLED), 1, [], 1, map[2 := DetachWait(0)])
  {
    s := Cleared();
    s := Go(s, ClientStep(2),
            Tiny(Node(HANGING, true, 0, 0, Leaving(0), 0, 0, true), [], Free, SignalSwap(0, SIGNALLED), 1, [], 1, map[2 := SchedSwap(0, 0, true, HANGING)]));
    s := Go(s, ClientStep(2),
            Tiny(Node(HANGING, true, 0, 0, Leaving(0), 0, 0, true), [], Free, SignalSwap(0, SIGNALLED), 1, [], 1, map[2 := Wake(0, true, false, 0)]));
    s := Go(s, ClientStep(2),
            Tiny(Node(HANGING, true, 0, 0, Leaving(0), 0, 0, true), [], Free, SignalSwap(0, SIGNALLED), 1, [], 1, map[2 := DetachWait(0)]));
  }

  lemma Second() returns (s: State)
    ensures Reachable(s)
    ensures s == Pair(Node(ATTACHED, true, 0, 0, Resting, 0, 0, false), [], map[3 := SchedRead(1, 0, false)])
  {
    s := Waiting0();
    s := Go(s, Attach(3, 1, 0), Pair(Node(ATTACHED, true, 0, 0, Resting, 0, 0, false), [], map[3 := SchedRead(1, 0, false)]));
  }

  lemma SecondRead() returns (s: State)
    ensures Reachable(s)
    ensures s == Pair(Node(ATTACHED, true, 0, 0, Resting, 0, 0, false), [], map[3 := SchedSwap(1, 0, false, ATTACHED)])
  {
    s := Second();
    s := Go(s, ClientStep(3), Pair(Node(ATTACHED, true, 0, 0, Resting, 0, 0, false), [], map[3 := SchedSwap(1, 0, false, ATTACHED)]));
  }

  lemma SecondClaimed() returns (s: State)
    ensures Reachable(s)
    ensures s == Pair(Node(QUEUING, true, 0, 0, Entering(3), 0, 0, true), [], map[3 := Enqueue(1, 0, false)])
  {
    s := SecondRead();
    s := Go(s, ClientStep(3), Pair(Node(QUEUING, true, 0, 0, Entering(3), 0, 0, true), [], map[3 := Enqueue(1, 0, false)]));
  }

  lemma SecondQueued() returns (s: State)
    ensures Reachable(s)
    ensures s == Pair(Node(QUEUING, true, 0, 0, Queued(0), 0, 0, true), [1], map[3 := Wake(1, false, true, 0)])
  {
    s := SecondClaimed();
    assert [] + [1 as NodeId] == [1];
    s := Go(s, ClientStep(3), Pair(Node(QUEUING, true, 0, 0, Queued(0), 0, 0, true), [1], map[3 := Wake(1, false, true, 0)]));
  }

  lemma Behind() returns (s: State)
    ensures Reachable(s)
    ensures s == Pair(Node(QUEUING, true, 0, 0, Queued(0), 0, 0, true), [1], map[])
  {
    s := SecondQueued();
    s := Go(s, ClientStep(3), Pair(Node(QUEUING, true, 0, 0, Queued(0), 0, 0, true), [1], map[]));
  }

  /** One hanging worker leaves a queued node and the detach waiting, and nobody who goes on. */
  lemma QueueCanHang()
    ensures exists s :: Reachable(s) && Hung(s) && !GoesOn(s) && |s.queues| == 1 && s.queues[0].list == [1] && s.clients == map[2 := DetachWait(0)]
  {
    var s := Behind();
    assert Stuck(s, 0, 0);
    assert HangsOnSome(s, 0);
    GoesOnIff(s);
  }
}
