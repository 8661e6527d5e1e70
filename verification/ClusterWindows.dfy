/**
 Progress of triggers and detaches.  Between the read of a node word after the
 node's function ran and the swap that ends that round, a worker acts on what it
 read.  A trigger or a detach that lands there is lost or hangs; everywhere else
 both are kept.  This module says exactly when.
 */
module ClusterWindows {
  import opened NodeWord
  import opened Cluster
  import opened ClusterInv
  import opened ClusterTheorems

  // ----- what one action does to one node

  /** The facts of the invariant that an action on node `n` can rest on. */
  lemma Local(s: State, a: Action, n: NodeId)
    requires Inv(s) && Enabled(s, a) && n in s.nodes
    ensures NodeOk(s, n)
    ensures a.ClientStep? ==> ClientOk(s, a.t)
    ensures a.WorkerStep? ==> WorkerOk(s, a.w)
    ensures a.WorkerStep? && s.workers[a.w].list != [] ==> InPlace(s, s.workers[a.w].list[0], Held(a.w))
    ensures a.WorkerStep? && s.workers[a.w].pc.InQueue? && s.queues[s.workers[a.w].pc.i].list != [] ==>
              InPlace(s, s.queues[s.workers[a.w].pc.i].list[0], Queued(s.workers[a.w].pc.i))
  {
    assert NodeOk(s, n);
    match a
    case ClientStep(t) => assert ClientOk(s, t);
    case WorkerStep(w) =>
      assert WorkerOk(s, w);
      if s.workers[w].list != [] { assert s.workers[w].list[0] in s.workers[w].list; }
      if s.workers[w].pc.InQueue? { assert QueueOk(s, s.workers[w].pc.i); }
    case _ =>
  }

  // ----- triggers

  /** A trigger was accepted after the last start of the function, and no run is in sight. */
  predicate Lost(s: State, n: NodeId) {
    n in s.nodes && s.nodes[n].owed && s.nodes[n].word.idle
  }

  /** A worker is about to idle a node that was signalled behind its back. */
  predicate Doomed(s: State, n: NodeId) {
    n in s.nodes && Idling(s, n, s.nodes[n]) && s.nodes[n].word.signal
  }

  /** A schedule sets the signal after the deciding read and before the idling swap. */
  predicate HitsWindow(s: State, a: Action, n: NodeId) {
    && a.ClientStep? && a.t in s.clients && s.clients[a.t].SchedSwap? && s.clients[a.t].n == n
    && n in s.nodes && s.nodes[n].word == s.clients[a.t].seen
    && s.nodes[n].word.run && Idling(s, n, s.nodes[n])
  }

  predicate HitSome(s: State, acts: seq<Action>, n: NodeId)
    requires Runs(s, acts)
    decreases |acts|
  {
    acts != [] && (HitsWindow(s, acts[0], n) || HitSome(Next(s, acts[0]), acts[1..], n))
  }

  predicate LostSome(s: State, acts: seq<Action>, n: NodeId)
    requires Runs(s, acts)
    decreases |acts|
  {
    Lost(s, n) || (acts != [] && LostSome(Next(s, acts[0]), acts[1..], n))
  }

  /** An accepted trigger is without a run exactly while the word shows IDLE and SIGNAL together. */
  lemma LostExactly(s: State, n: NodeId)
    requires Reachable(s) && n in s.nodes
    ensures Lost(s, n) <==> s.nodes[n].word.idle && s.nodes[n].word.signal
  {
    ReachableInv(s);
    assert NodeOk(s, n);
  }

  /** In every other state it is waiting, or marked for another round, or about to start. */
  lemma TriggerKept(s: State, n: NodeId)
    requires Reachable(s) && n in s.nodes && s.nodes[n].owed && !Lost(s, n)
    ensures var x := s.nodes[n];
            x.word.wait || (x.word.run && x.word.signal) || (x.word.run && StartsSoon(s, n, x))
  {
    ReachableInv(s);
    assert NodeOk(s, n);
  }

  /** Lost or about to be. */
  predicate Bad(s: State, n: NodeId) {
    n in s.nodes && s.nodes[n].word.signal && (s.nodes[n].word.idle || Idling(s, n, s.nodes[n]))
  }

  lemma BadMeans(s: State, n: NodeId)
    requires Inv(s)
    ensures Bad(s, n) <==> Lost(s, n) || Doomed(s, n)
  {
    if n in s.nodes { assert NodeOk(s, n); }
  }

  lemma ClientStepBad(s: State, a: Action, n: NodeId)
    requires Inv(s) && Enabled(s, a) && a.ClientStep?
    ensures Bad(Next(s, a), n) ==> Bad(s, n) || HitsWindow(s, a, n)
    ensures Doomed(s, n) || HitsWindow(s, a, n) ==> Doomed(Next(s, a), n)
  {
    if s.clients[a.t].SchedSwap? {
      SwapStepBad(s, a, n);
    } else {
      ClientKeepsMarks(s, a, n);
    }
  }

  lemma SwapStepBad(s: State, a: Action, n: NodeId)
    requires Inv(s) && Enabled(s, a) && a.ClientStep? && s.clients[a.t].SchedSwap?
    ensures Bad(Next(s, a), n) ==> Bad(s, n) || HitsWindow(s, a, n)
    ensures Doomed(s, n) || HitsWindow(s, a, n) ==> Doomed(Next(s, a), n)
  {
    assert ClientOk(s, a.t);
    if n in s.nodes { assert NodeOk(s, n); }
  }

  /** Only the swap of a schedule changes what a node's flags or its worker say. */
  lemma ClientKeepsMarks(s: State, a: Action, n: NodeId)
    requires Inv(s) && Enabled(s, a) && a.ClientStep? && !s.clients[a.t].SchedSwap?
    ensures Bad(Next(s, a), n) <==> Bad(s, n)
    ensures Doomed(Next(s, a), n) <==> Doomed(s, n)
  {
    assert ClientOk(s, a.t);
    if n in s.nodes { assert NodeOk(s, n); }
  }

  /** A worker with node `n` in hand. */
  lemma OwnStepBad(s: State, w: WorkerId, n: NodeId)
    requires Inv(s) && Enabled(s, WorkerStep(w)) && OnNode(s.workers[w].pc) && s.workers[w].pc.n == n
    ensures Bad(DoWorker(s, w), n) ==> Bad(s, n)
    ensures Doomed(s, n) ==> Bad(DoWorker(s, w), n)
  {
    Local(s, WorkerStep(w), n);
  }

  /** A worker about to take some node off a list. */
  lemma TakingStepBad(s: State, w: WorkerId, n: NodeId)
    requires Inv(s) && Enabled(s, WorkerStep(w)) && (s.workers[w].pc.InQueue? || s.workers[w].pc.Loop?)
    ensures Bad(DoWorker(s, w), n) <==> Bad(s, n)
  {
    assert WorkerOk(s, w);
    if n in s.nodes { Local(s, WorkerStep(w), n); }
  }

  /** A worker with another node in hand, or with none. */
  lemma OtherStepsBad(s: State, w: WorkerId, n: NodeId)
    requires Inv(s) && Enabled(s, WorkerStep(w)) && (OnNode(s.workers[w].pc) ==> s.workers[w].pc.n != n)
    requires !s.workers[w].pc.InQueue? && !s.workers[w].pc.Loop?
    ensures Bad(DoWorker(s, w), n) <==> Bad(s, n)
  {
    OtherNodeSame(s, w, n);
    if n in s.nodes { assert NodeOk(s, n); }
  }

  /** Such a worker leaves node `n` and the other workers alone. */
  lemma OtherNodeSame(s: State, w: WorkerId, n: NodeId)
    requires Enabled(s, WorkerStep(w)) && (OnNode(s.workers[w].pc) ==> s.workers[w].pc.n != n)
    requires !s.workers[w].pc.InQueue? && !s.workers[w].pc.Loop?
    ensures var s' := DoWorker(s, w);
            && |s'.workers| == |s.workers| && (n in s'.nodes <==> n in s.nodes)
            && (n in s.nodes ==> s'.nodes[n] == s.nodes[n])
            && (forall v | 0 <= v < |s.workers| && v != w :: s'.workers[v] == s.workers[v])
  {
  }

  lemma WorkerStepBad(s: State, a: Action, n: NodeId)
    requires Inv(s) && Enabled(s, a) && a.WorkerStep?
    ensures Bad(Next(s, a), n) ==> Bad(s, n)
    ensures Doomed(s, n) ==> Bad(Next(s, a), n)
  {
    var pc := s.workers[a.w].pc;
    if OnNode(pc) && pc.n == n {
      OwnStepBad(s, a.w, n);
    } else if pc.InQueue? || pc.Loop? {
      TakingStepBad(s, a.w, n);
      BadMeans(s, n);
    } else {
      BadMeans(s, n);
      OtherStepsBad(s, a.w, n);
    }
  }

  lemma OtherStepBad(s: State, a: Action, n: NodeId)
    requires Inv(s) && Enabled(s, a) && !a.ClientStep? && !a.WorkerStep?
    ensures Bad(Next(s, a), n) ==> Bad(s, n)
    ensures Doomed(s, n) ==> Doomed(Next(s, a), n)
  {
    if n in s.nodes { assert NodeOk(s, n); }
    if a.Spurious? { assert WorkerOk(s, a.w); }
  }

  /** A node turns bad only by a hit, is doomed by every hit, and stays bad until its next start. */
  lemma BadStep(s: State, a: Action, n: NodeId)
    requires Inv(s) && Enabled(s, a)
    ensures Bad(Next(s, a), n) ==> Bad(s, n) || HitsWindow(s, a, n)
    ensures HitsWindow(s, a, n) ==> Doomed(Next(s, a), n)
    ensures Doomed(s, n) ==> Bad(Next(s, a), n)
  {
    match a
    case ClientStep(_) => ClientStepBad(s, a, n);
    case WorkerStep(_) => WorkerStepBad(s, a, n);
    case _ => OtherStepBad(s, a, n);
  }

  lemma {:induction false} DoomedRun(s: State, acts: seq<Action>, n: NodeId)
    requires Inv(s) && Runs(s, acts) && Doomed(s, n)
    ensures Doomed(After(s, acts), n) || LostSome(s, acts, n)
    decreases |acts|
  {
    if acts != [] {
      BadStep(s, acts[0], n);
      NextInv(s, acts[0]);
      BadMeans(Next(s, acts[0]), n);
      if Doomed(Next(s, acts[0]), n) {
        DoomedRun(Next(s, acts[0]), acts[1..], n);
      }
    }
  }

  lemma {:induction false} LostRun(s: State, acts: seq<Action>, n: NodeId)
    requires Inv(s) && Runs(s, acts) && !Lost(s, n) && !Doomed(s, n)
    ensures HitSome(s, acts, n) <==> LostSome(s, acts, n) || Doomed(After(s, acts), n)
    decreases |acts|
  {
    if acts != [] {
      var s' := Next(s, acts[0]);
      NextInv(s, acts[0]);
      BadStep(s, acts[0], n);
      BadMeans(s, n);
      BadMeans(s', n);
      if HitsWindow(s, acts[0], n) {
        DoomedRun(s', acts[1..], n);
      } else {
        LostRun(s', acts[1..], n);
      }
    }
  }

  /**
   A run loses a trigger of `n` exactly when some schedule of it lands in the
   window: the run has to go on until no worker is left inside the window.
   */
  lemma TriggerLostIff(p: nat, b: seq<nat>, acts: seq<Action>, n: NodeId)
    requires |b| > 0 && forall i | 0 <= i < |b| :: b[i] > 0
    requires Runs(Start(p, b), acts)
    requires var s := After(Start(p, b), acts); n in s.nodes ==> !Idling(s, n, s.nodes[n])
    ensures HitSome(Start(p, b), acts, n) <==> LostSome(Start(p, b), acts, n)
  {
    StartInv(p, b);
    LostRun(Start(p, b), acts, n);
  }

  // ----- detach: a swap that can never succeed

  /** Worker `w` retries a swap whose expected word is not the node's any more. */
  predicate Stuck(s: State, w: WorkerId, n: NodeId) {
    && w < |s.workers| && n in s.nodes
    && s.workers[w].pc.SignalSwap? && s.workers[w].pc.n == n && s.nodes[n].word != s.workers[w].pc.st
  }

  /** A detach clears the valid flag between the deciding read and the swap of a signalled node. */
  predicate ClearsInWindow(s: State, a: Action, w: WorkerId, n: NodeId) {
    && a.ClientStep? && a.t in s.clients && s.clients[a.t] == DetachClear(n)
    && w < |s.workers| && s.workers[w].pc.SignalSwap? && s.workers[w].pc.n == n
  }

  lemma StuckByClient(s: State, a: Action, w: WorkerId, n: NodeId)
    requires Inv(s) && Enabled(s, a) && a.ClientStep? && w < |s.workers| && n in s.nodes
    ensures !Stuck(s, w, n) ==> (Stuck(Next(s, a), w, n) <==> ClearsInWindow(s, a, w, n))
    ensures Stuck(s, w, n) ==> Stuck(Next(s, a), w, n) && Next(s, a).workers[w] == s.workers[w]
  {
    ClientKeepsPc(s, a, w);
    if s.workers[w].pc.SignalSwap? && s.workers[w].pc.n == n { ClientOnLeaving(s, a, w, n); }
  }

  /** A client may wake a sleeping worker and touches no other. */
  lemma ClientKeepsPc(s: State, a: Action, w: WorkerId)
    requires Inv(s) && Enabled(s, a) && a.ClientStep? && w < |s.workers|
    ensures w < |Next(s, a).workers|
    ensures Next(s, a).workers[w] == s.workers[w] || (s.workers[w].pc.Asleep? && Next(s, a).workers[w].pc.Asleep?)
  {
    assert ClientOk(s, a.t);
  }

  /** While a worker is about to put a signalled node back, a client changes its word only by clearing the flag. */
  lemma ClientOnLeaving(s: State, a: Action, w: WorkerId, n: NodeId)
    requires Inv(s) && Enabled(s, a) && a.ClientStep? && w < |s.workers| && n in s.nodes
    requires s.workers[w].pc.SignalSwap? && s.workers[w].pc.n == n
    ensures n in Next(s, a).nodes
    ensures !ClearsInWindow(s, a, w, n) ==> Next(s, a).nodes[n].word == s.nodes[n].word
    ensures ClearsInWindow(s, a, w, n) ==> Next(s, a).nodes[n].word != s.workers[w].pc.st
  {
    assert ClientOk(s, a.t) && WorkerOk(s, w) && NodeOk(s, n);
  }

  lemma StuckByWorker(s: State, a: Action, w: WorkerId, n: NodeId)
    requires Inv(s) && Enabled(s, a) && a.WorkerStep? && w < |s.workers| && n in s.nodes
    ensures Stuck(s, w, n) <==> Stuck(Next(s, a), w, n)
    ensures Stuck(s, w, n) ==> Next(s, a).workers[w] == s.workers[w]
  {
    hide DoWorker, NodeOk;
    assert WorkerOk(s, w);
    if a.w != w { OtherWorker(s, a.w, w, n); } else { StuckByItself(s, w, n); }
  }

  lemma StuckByItself(s: State, w: WorkerId, n: NodeId)
    requires Inv(s) && Enabled(s, WorkerStep(w)) && n in s.nodes
    ensures Stuck(s, w, n) <==> Stuck(DoWorker(s, w), w, n)
    ensures Stuck(s, w, n) ==> DoWorker(s, w).workers[w] == s.workers[w]
  {
    assert WorkerOk(s, w) && NodeOk(s, n);
  }

  /** A worker leaves the word of a node alone that another worker has in hand. */
  lemma OtherWorker(s: State, v: WorkerId, w: WorkerId, n: NodeId)
    requires Inv(s) && Enabled(s, WorkerStep(v)) && w < |s.workers| && v != w && n in s.nodes
    ensures w < |Next(s, WorkerStep(v)).workers| && Next(s, WorkerStep(v)).workers[w] == s.workers[w]
    ensures n in Next(s, WorkerStep(v)).nodes
    ensures s.nodes[n].place == Leaving(w) ==> Next(s, WorkerStep(v)).nodes[n].word == s.nodes[n].word
  {
    WorkerTouchesItself(s, v, w);
    Local(s, WorkerStep(v), n);
  }

  lemma WorkerTouchesItself(s: State, v: WorkerId, w: WorkerId)
    requires Enabled(s, WorkerStep(v)) && w < |s.workers| && v != w
    ensures w < |DoWorker(s, v).workers| && DoWorker(s, v).workers[w] == s.workers[w]
  {
  }

  /** The hang begins with exactly that step. */
  lemma StuckExactly(s: State, a: Action, w: WorkerId, n: NodeId)
    requires Reachable(s) && Enabled(s, a) && !Stuck(s, w, n)
    ensures Stuck(Next(s, a), w, n) <==> ClearsInWindow(s, a, w, n)
  {
    ReachableInv(s);
    if w >= |s.workers| {
    } else if n !in s.nodes {
      StuckOnNoNode(s, a, w, n);
    } else {
      match a
      case ClientStep(_) => StuckByClient(s, a, w, n);
      case WorkerStep(_) => StuckByWorker(s, a, w, n);
      case _ => StuckByOther(s, a, w, n);
    }
  }

  lemma StuckByOther(s: State, a: Action, w: WorkerId, n: NodeId)
    requires Inv(s) && Enabled(s, a) && !a.ClientStep? && !a.WorkerStep? && w < |s.workers| && n in s.nodes
    ensures Stuck(s, w, n) <==> Stuck(Next(s, a), w, n)
    ensures Stuck(s, w, n) ==> Next(s, a).workers[w] == s.workers[w]
  {
    assert WorkerOk(s, w) && NodeOk(s, n);
  }

  lemma StuckOnNoNode(s: State, a: Action, w: WorkerId, n: NodeId)
    requires Inv(s) && Enabled(s, a) && w < |s.workers| && n !in s.nodes
    ensures !Stuck(Next(s, a), w, n) && !ClearsInWindow(s, a, w, n)
  {
    assert WorkerOk(s, w);
    if a.Attach? {
      assert Next(s, a).workers == s.workers;
    } else {
      OnlyAttachAdds(s, a, n);
    }
  }

  lemma OnlyAttachAdds(s: State, a: Action, n: NodeId)
    requires Inv(s) && Enabled(s, a) && n !in s.nodes && !a.Attach?
    ensures n !in Next(s, a).nodes
    ensures a.ClientStep? ==> s.clients[a.t].n != n
  {
    match a
    case ClientStep(t) => assert ClientOk(s, t);
    case WorkerStep(w) => WorkerAddsNone(s, w);
    case _ =>
  }

  lemma WorkerAddsNone(s: State, w: WorkerId)
    requires Inv(s) && Enabled(s, WorkerStep(w))
    ensures DoWorker(s, w).nodes.Keys == s.nodes.Keys
  {
    assert WorkerOk(s, w);
    if s.workers[w].list != [] { assert s.workers[w].list[0] in s.workers[w].list; }
    if s.workers[w].pc.InQueue? { assert QueueOk(s, s.workers[w].pc.i); }
  }

  lemma StuckStep(s: State, a: Action, w: WorkerId, n: NodeId)
    requires Inv(s) && Enabled(s, a) && Stuck(s, w, n)
    ensures Stuck(Next(s, a), w, n) && Next(s, a).workers[w] == s.workers[w]
  {
    match a
    case ClientStep(_) => StuckByClient(s, a, w, n);
    case WorkerStep(_) => StuckByWorker(s, a, w, n);
    case _ => StuckByOther(s, a, w, n);
  }

  /** From then on the worker never moves and the semaphore of the detach is never posted. */
  lemma {:induction false} StuckForever(s: State, acts: seq<Action>, w: WorkerId, n: NodeId)
    requires Inv(s) && Runs(s, acts) && Stuck(s, w, n)
    ensures var s' := After(s, acts);
            Stuck(s', w, n) && s'.workers[w] == s.workers[w] && s'.nodes[n].sem == 0 && !s'.nodes[n].word.valid
    decreases |acts|
  {
    if acts == [] {
      assert WorkerOk(s, w) && NodeOk(s, n);
    } else {
      StuckStep(s, acts[0], w, n);
      NextInv(s, acts[0]);
      StuckForever(Next(s, acts[0]), acts[1..], w, n);
    }
  }

  // ----- detach: on its way unless one of the windows was hit

  /** The thread of a detach has cleared the flag and not finished its schedule. */
  predicate Scheduling(c: Client, n: NodeId) {
    c.n == n && (c.SchedRead? || c.SchedSwap?) && c.det
  }

  ghost predicate Summoned(s: State, n: NodeId) {
    exists t <- s.clients :: Scheduling(s.clients[t], n)
  }

  /** The function will run, runs, or was seen to end on an invalid node. */
  predicate AtWorker(p: Place) {
    p.Held? || p.Closing? || p.Closed?
  }

  ghost predicate DetachOk(s: State, n: NodeId)
    requires n in s.nodes
  {
    var x := s.nodes[n];
    !x.word.valid ==> x.owed || AtWorker(x.place) || Summoned(s, n)
  }

  lemma DetachOkClient(s: State, a: Action, n: NodeId)
    requires Inv(s) && Enabled(s, a) && a.ClientStep? && n in s.nodes && DetachOk(s, n)
    ensures DetachOk(Next(s, a), n)
  {
    var c := s.clients[a.t];
    var s' := Next(s, a);
    if c == DetachClear(n) {
      assert Scheduling(s'.clients[a.t], n);
    } else {
      ClientOutcome(s, a, n);
      if Summoned(s, n) {
        var t :| t in s.clients && Scheduling(s.clients[t], n);
        if t != a.t { assert Scheduling(s'.clients[t], n); }
      }
    }
  }

  /** A client step other than the clearing one keeps what a detach relies on, and a scheduling thread goes on or has scheduled. */
  lemma ClientOutcome(s: State, a: Action, n: NodeId)
    requires Inv(s) && Enabled(s, a) && a.ClientStep? && n in s.nodes && s.clients[a.t] != DetachClear(n)
    ensures var s' := Next(s, a);
            && n in s'.nodes && (s.nodes[n].owed ==> s'.nodes[n].owed)
            && (s.nodes[n].word.valid <==> s'.nodes[n].word.valid)
            && (AtWorker(s.nodes[n].place) ==> s'.nodes[n].place == s.nodes[n].place)
            && (forall t :: t in s.clients && t != a.t ==> t in s'.clients && s'.clients[t] == s.clients[t])
            && (Scheduling(s.clients[a.t], n) ==> s'.nodes[n].owed || (a.t in s'.clients && Scheduling(s'.clients[a.t], n)))
  {
    assert ClientOk(s, a.t) && NodeOk(s, n);
  }

  lemma DetachOkWorker(s: State, a: Action, n: NodeId)
    requires Inv(s) && Enabled(s, a) && a.WorkerStep? && n in s.nodes && DetachOk(s, n)
    ensures DetachOk(Next(s, a), n)
  {
    var s' := Next(s, a);
    var pc := s.workers[a.w].pc;
    WorkerKeepsSummons(s, a.w, n);
    if (OnNode(pc) && pc.n == n) || pc.InQueue? || pc.Loop? {
      Local(s, a, n);
    } else {
      OtherNodeSame(s, a.w, n);
    }
  }

  lemma WorkerKeepsSummons(s: State, w: WorkerId, n: NodeId)
    requires Enabled(s, WorkerStep(w))
    ensures Summoned(s, n) ==> Summoned(DoWorker(s, w), n)
  {
    var s' := DoWorker(s, w);
    assert s'.clients == s.clients;
    if Summoned(s, n) {
      var t :| t in s.clients && Scheduling(s.clients[t], n);
      assert Scheduling(s'.clients[t], n);
    }
  }

  lemma DetachOkOther(s: State, a: Action, n: NodeId)
    requires Inv(s) && Enabled(s, a) && !a.ClientStep? && !a.WorkerStep? && n in s.nodes && DetachOk(s, n)
    ensures DetachOk(Next(s, a), n)
  {
    var s' := Next(s, a);
    if Summoned(s, n) {
      var t :| t in s.clients && Scheduling(s.clients[t], n);
      assert Scheduling(s'.clients[t], n);
    }
  }

  lemma DetachOkStep(s: State, a: Action, n: NodeId)
    requires Inv(s) && Enabled(s, a) && (n in s.nodes ==> DetachOk(s, n)) && n in Next(s, a).nodes
    ensures DetachOk(Next(s, a), n)
  {
    if n !in s.nodes {
      NextInv(s, a);
      NewNodeValid(s, a, n);
    } else {
      match a
      case ClientStep(_) => DetachOkClient(s, a, n);
      case WorkerStep(_) => DetachOkWorker(s, a, n);
      case _ => DetachOkOther(s, a, n);
    }
  }

  lemma NewNodeValid(s: State, a: Action, n: NodeId)
    requires Inv(s) && Enabled(s, a) && n !in s.nodes && n in Next(s, a).nodes
    ensures Next(s, a).nodes[n].word.valid
  {
    assert a.ClientStep? ==> ClientOk(s, a.t);
  }

  lemma {:induction false} DetachOkRun(s: State, acts: seq<Action>, n: NodeId)
    requires Inv(s) && Runs(s, acts) && (n in s.nodes ==> DetachOk(s, n)) && n in After(s, acts).nodes
    ensures DetachOk(After(s, acts), n)
    decreases |acts|
  {
    if acts != [] {
      var s' := Next(s, acts[0]);
      NextInv(s, acts[0]);
      if n in s'.nodes { DetachOkStep(s, acts[0], n); }
      DetachOkRun(s', acts[1..], n);
    }
  }

  /** The post is coming: the detach still schedules, or the node waits, or a worker will find it invalid. */
  ghost predicate PostComing(s: State, n: NodeId)
    requires n in s.nodes
  {
    var x := s.nodes[n];
    Summoned(s, n) || x.word.wait || x.place.Taken? || x.place.Held? || x.place.Closing?
  }

  /** With its detach waiting, an invalid node is on its way to the post if and only if no trigger was lost and no worker hangs on it. */
  lemma DetachOnItsWay(s: State, n: NodeId)
    requires Reachable(s) && n in s.nodes && !s.nodes[n].word.valid && s.nodes[n].posts == 0 && !Summoned(s, n)
    ensures PostComing(s, n) <==> !(Lost(s, n) || Doomed(s, n) || exists w :: Stuck(s, w, n))
  {
    OnItsWayOr(s, n);
    ReachableInv(s);
    assert NodeOk(s, n);
    forall w | Stuck(s, w, n) ensures !PostComing(s, n) {
      assert WorkerOk(s, w);
    }
  }

  lemma OnItsWayOr(s: State, n: NodeId)
    requires Reachable(s) && n in s.nodes && !s.nodes[n].word.valid && s.nodes[n].posts == 0
    ensures PostComing(s, n) || Lost(s, n) || Doomed(s, n) || exists w :: Stuck(s, w, n)
  {
    var p: nat, b: seq<nat>, acts: seq<Action> :|
      && |b| > 0 && (forall i | 0 <= i < |b| :: b[i] > 0)
      && Runs(Start(p, b), acts) && After(Start(p, b), acts) == s;
    StartInv(p, b);
    RunInv(Start(p, b), acts);
    DetachOkRun(Start(p, b), acts, n);
    assert NodeOk(s, n);
    var x := s.nodes[n];
    if x.place.Leaving? && s.workers[x.place.w].pc.SignalSwap? {
      assert WorkerOk(s, x.place.w);
      assert Stuck(s, x.place.w, n);
    }
  }

  // ----- both windows are reachable: one worker, one queue, one node

  lemma {:induction false} RunsAppend(s: State, acts: seq<Action>, a: Action)
    requires Runs(s, acts) && Enabled(After(s, acts), a)
    ensures Runs(s, acts + [a]) && After(s, acts + [a]) == Next(After(s, acts), a)
    decreases |acts|
  {
    if acts == [] {
      assert [a][1..] == [];
    } else {
      assert (acts + [a])[1..] == acts[1..] + [a];
      RunsAppend(Next(s, acts[0]), acts[1..], a);
    }
  }

  lemma ReachableNext(s: State, a: Action)
    requires Reachable(s) && Enabled(s, a)
    ensures Reachable(Next(s, a))
  {
    var p: nat, b: seq<nat>, acts: seq<Action> :|
      && |b| > 0 && (forall i | 0 <= i < |b| :: b[i] > 0)
      && Runs(Start(p, b), acts) && After(Start(p, b), acts) == s;
    RunsAppend(Start(p, b), acts, a);
  }

  /** Node 0 in the state `x`, the only worker at `pc`, the only client `c`, if any. */
  function Tiny(x: Node, list: seq<NodeId>, holder: Holder, pc: WorkerPc, taken: nat, held: seq<NodeId>, work: int,
                c: map<ThreadId, Client>): State {
    State(map[0 := x], [Queue(list, |list|, holder)], [Worker(pc, true, 1, taken, work, held)], c)
  }

  const QUEUING := Word(true, false, false, true, false)
  const RUNNING := Word(true, false, false, false, true)

  /** One action, with the state it leads to written out. */
  lemma Go(s: State, a: Action, s': State) returns (r: State)
    requires Reachable(s) && Enabled(s, a) && Next(s, a) == s'
    ensures r == s' && Reachable(r)
  {
    ReachableNext(s, a);
    r := s';
  }

  /** One worker, one queue, no node yet. */
  lemma Begin() returns (s: State)
    ensures Reachable(s)
    ensures s == State(map[], [Queue([], 0, Free)], [Worker(Top, true, 1, 0, 0, [])], map[])
  {
    s := Start(1, [1]);
    assert Runs(s, []) && After(s, []) == s;
  }

  // an attach takes node 0 through its first run

  lemma Attached() returns (s: State)
    ensures Reachable(s)
    ensures s == Tiny(Node(ATTACHED, true, 0, 0, Resting, 0, 0, false), [], Free, Top, 0, [], 0, map[0 := SchedSwap(0, 0, false, ATTACHED)])
  {
    s := Begin();
    s := Go(s, Attach(0, 0, 0),
            Tiny(Node(ATTACHED, true, 0, 0, Resting, 0, 0, false), [], Free, Top, 0, [], 0, map[0 := SchedRead(0, 0, false)]));
    s := Go(s, ClientStep(0),
            Tiny(Node(ATTACHED, true, 0, 0, Resting, 0, 0, false), [], Free, Top, 0, [], 0, map[0 := SchedSwap(0, 0, false, ATTACHED)]));
  }

  lemma Claimed() returns (s: State)
    ensures Reachable(s)
    ensures s == Tiny(Node(QUEUING, true, 0, 0, Entering(0), 0, 0, true), [], Free, Top, 0, [], 0, map[0 := Enqueue(0, 0, false)])
  {
    s := Attached();
    s := Go(s, ClientStep(0),
            Tiny(Node(QUEUING, true, 0, 0, Entering(0), 0, 0, true), [], Free, Top, 0, [], 0, map[0 := Enqueue(0, 0, false)]));
  }

  lemma Waking() returns (s: State)
    ensures Reachable(s)
    ensures s == Tiny(Node(QUEUING, true, 0, 0, Queued(0), 0, 0, true), [0], Free, Top, 0, [], 0, map[0 := Wake(0, false, true, 0)])
  {
    s := Claimed();
    assert [] + [0 as NodeId] == [0];
    s := Go(s, ClientStep(0),
            Tiny(Node(QUEUING, true, 0, 0, Queued(0), 0, 0, true), [0], Free, Top, 0, [], 0, map[0 := Wake(0, false, true, 0)]));
  }

  lemma Signalling() returns (s: State)
    ensures Reachable(s)
    ensures s == Tiny(Node(QUEUING, true, 0, 0, Queued(0), 0, 0, true), [0], Free, Scan(0), 0, [], 0, map[])
  {
    s := Waking();
    s := Go(s, ClientStep(0),
            Tiny(Node(QUEUING, true, 0, 0, Queued(0), 0, 0, true), [0], Free, Top, 0, [], 0, map[]));
    s := Go(s, WorkerStep(0),
            Tiny(Node(QUEUING, true, 0, 0, Queued(0), 0, 0, true), [0], Free, Scan(0), 0, [], 0, map[]));
  }

  lemma Locking() returns (s: State)
    ensures Reachable(s)
    ensures s == Tiny(Node(QUEUING, true, 0, 0, Queued(0), 0, 0, true), [0], By(0), InQueue(0), 0, [], 0, map[])
  {
    s := Signalling();
    s := Go(s, WorkerStep(0),
            Tiny(Node(QUEUING, true, 0, 0, Queued(0), 0, 0, true), [0], By(0), InQueue(0), 0, [], 0, map[]));
  }

  lemma Reading() returns (s: State)
    ensures Reachable(s)
    ensures s == Tiny(Node(QUEUING, true, 0, 0, Popped(0), 0, 0, true), [], By(0), PopRead(0, 0), 0, [], 0, map[])
  {
    s := Locking();
    assert [0 as NodeId][1..] == [];
    s := Go(s, WorkerStep(0),
            Tiny(Node(QUEUING, true, 0, 0, Popped(0), 0, 0, true), [], By(0), PopRead(0, 0), 0, [], 0, map[]));
  }

  lemma Popping() returns (s: State)
    ensures Reachable(s)
    ensures s == Tiny(Node(QUEUING, true, 0, 0, Popped(0), 0, 0, true), [], By(0), PopSwap(0, 0, QUEUING), 0, [], 0, map[])
  {
    s := Reading();
    s := Go(s, WorkerStep(0),
            Tiny(Node(QUEUING, true, 0, 0, Popped(0), 0, 0, true), [], By(0), PopSwap(0, 0, QUEUING), 0, [], 0, map[]));
  }

  lemma Swapped() returns (s: State)
    ensures Reachable(s)
    ensures s == Tiny(Node(RUNNING, true, 0, 0, Taken(0), 0, 0, true), [], By(0), PopPut(0, 0), 0, [], 0, map[])
  {
    s := Popping();
    s := Go(s, WorkerStep(0),
            Tiny(Node(RUNNING, true, 0, 0, Taken(0), 0, 0, true), [], By(0), PopPut(0, 0), 0, [], 0, map[]));
  }

  lemma Handed() returns (s: State)
    ensures Reachable(s)
    ensures s == Tiny(Node(RUNNING, true, 0, 0, Held(0), 0, 0, true), [], Free, Loop, 1, [0], 1, map[])
  {
    s := Swapped();
    assert [] + [0 as NodeId] == [0];
    s := Go(s, WorkerStep(0),
            Tiny(Node(RUNNING, true, 0, 0, Held(0), 0, 0, true), [], Free, Loop, 1, [0], 1, map[]));
  }

  lemma Runs0() returns (s: State)
    ensures Reachable(s)
    ensures s == Tiny(Node(RUNNING, true, 0, 0, Held(0), 0, 0, false), [], Free, InProc(0), 1, [0], 1, map[])
  {
    s := Handed();
    s := Go(s, WorkerStep(0),
            Tiny(Node(RUNNING, true, 0, 0, Held(0), 0, 0, false), [], Free, InProc(0), 1, [0], 1, map[]));
  }

  // a trigger after the deciding read of the idle branch

  lemma Idle0() returns (s: State)
    ensures Reachable(s)
    ensures s == Tiny(Node(RUNNING, true, 0, 0, Leaving(0), 0, 0, false), [], Free, IdleRead(0), 1, [], 1, map[])
  {
    s := Runs0();
    s := Go(s, WorkerStep(0),
            Tiny(Node(RUNNING, true, 0, 0, Held(0), 0, 0, false), [], Free, AfterProc(0), 1, [0], 1, map[]));
    assert [0 as NodeId][1..] == [];
    s := Go(s, WorkerStep(0),
            Tiny(Node(RUNNING, true, 0, 0, Leaving(0), 0, 0, false), [], Free, IdleRead(0), 1, [], 1, map[]));
  }

  lemma Swap0() returns (s: State)
    ensures Reachable(s)
    ensures s == Tiny(Node(RUNNING, true, 0, 0, Leaving(0), 0, 0, false), [], Free, IdleRead(0), 1, [], 1, map[1 := SchedSwap(0, 0, false, RUNNING)])
  {
    s := Idle0();
    s := Go(s, Trigger(1, 0),
            Tiny(Node(RUNNING, true, 0, 0, Leaving(0), 0, 0, false), [], Free, IdleRead(0), 1, [], 1, map[1 := SchedRead(0, 0, false)]));
    s := Go(s, ClientStep(1),
            Tiny(Node(RUNNING, true, 0, 0, Leaving(0), 0, 0, false), [], Free, IdleRead(0), 1, [], 1, map[1 := SchedSwap(0, 0, false, RUNNING)]));
  }

  lemma Marked() returns (s: State)
    ensures Reachable(s)
    ensures s == Tiny(Node(SIGNALLED, true, 0, 0, Leaving(0), 0, 0, true), [], Free, IdleRead(0), 1, [], 1, map[])
  {
    s := Swap0();
    s := Go(s, ClientStep(1),
            Tiny(Node(SIGNALLED, true, 0, 0, Leaving(0), 0, 0, true), [], Free, IdleRead(0), 1, [], 1, map[1 := Wake(0, false, false, 0)]));
    s := Go(s, ClientStep(1),
            Tiny(Node(SIGNALLED, true, 0, 0, Leaving(0), 0, 0, true), [], Free, IdleRead(0), 1, [], 1, map[]));
  }

  lemma Doomed0() returns (s: State)
    ensures Reachable(s)
    ensures s == Tiny(Node(SIGNALLED, true, 0, 0, Leaving(0), 0, 0, true), [], Free, IdleSwap(0, SIGNALLED), 1, [], 1, map[])
  {
    s := Marked();
    s := Go(s, WorkerStep(0),
            Tiny(Node(SIGNALLED, true, 0, 0, Leaving(0), 0, 0, true), [], Free, IdleSwap(0, SIGNALLED), 1, [], 1, map[]));
  }

  lemma Dropped() returns (s: State)
    ensures Reachable(s)
    ensures s == Tiny(Node(RunToIdle(SIGNALLED), true, 0, 0, Resting, 0, 0, true), [], Free, Loop, 1, [], 0, map[])
  {
    s := Doomed0();
    s := Go(s, WorkerStep(0),
            Tiny(Node(RunToIdle(SIGNALLED), true, 0, 0, Resting, 0, 0, true), [], Free, Loop, 1, [], 0, map[]));
  }

  // a trigger during the run, then a detach after the deciding read of the signal branch

  lemma Seen0() returns (s: State)
    ensures Reachable(s)
    ensures s == Tiny(Node(RUNNING, true, 0, 0, Held(0), 0, 0, false), [], Free, InProc(0), 1, [0], 1, map[1 := SchedSwap(0, 0, false, RUNNING)])
  {
    s := Runs0();
    s := Go(s, Trigger(1, 0),
            Tiny(Node(RUNNING, true, 0, 0, Held(0), 0, 0, false), [], Free, InProc(0), 1, [0], 1, map[1 := SchedRead(0, 0, false)]));
    s := Go(s, ClientStep(1),
            Tiny(Node(RUNNING, true, 0, 0, Held(0), 0, 0, false), [], Free, InProc(0), 1, [0], 1, map[1 := SchedSwap(0, 0, false, RUNNING)]));
  }

  lemma Signalled0() returns (s: State)
    ensures Reachable(s)
    ensures s == Tiny(Node(SIGNALLED, true, 0, 0, Held(0), 0, 0, true), [], Free, InProc(0), 1, [0], 1, map[])
  {
    s := Seen0();
    s := Go(s, ClientStep(1),
            Tiny(Node(SIGNALLED, true, 0, 0, Held(0), 0, 0, true), [], Free, InProc(0), 1, [0], 1, map[1 := Wake(0, false, false, 0)]));
    s := Go(s, ClientStep(1),
            Tiny(Node(SIGNALLED, true, 0, 0, Held(0), 0, 0, true), [], Free, InProc(0), 1, [0], 1, map[]));
  }

  lemma Leaving0() returns (s: State)
    ensures Reachable(s)
    ensures s == Tiny(Node(SIGNALLED, true, 0, 0, Leaving(0), 0, 0, true), [], Free, SignalSwap(0, SIGNALLED), 1, [], 1, map[])
  {
    s := Signalled0();
    s := Go(s, WorkerStep(0),
            Tiny(Node(SIGNALLED, true, 0, 0, Held(0), 0, 0, true), [], Free, AfterProc(0), 1, [0], 1, map[]));
    assert [0 as NodeId][1..] == [];
    s := Go(s, WorkerStep(0),
            Tiny(Node(SIGNALLED, true, 0, 0, Leaving(0), 0, 0, true), [], Free, SignalSwap(0, SIGNALLED), 1, [], 1, map[]));
  }

  lemma Cleared() returns (s: State)
    ensures Reachable(s)
    ensures s == Tiny(Node(ClearValid(SIGNALLED), true, 0, 0, Leaving(0), 0, 0, true), [], Free, SignalSwap(0, SIGNALLED), 1, [], 1, map[2 := SchedRead(0, 0, true)])
  {
    s := Leaving0();
    s := Go(s, Detach(2, 0),
            Tiny(Node(SIGNALLED, true, 0, 0, Leaving(0), 0, 0, true), [], Free, SignalSwap(0, SIGNALLED), 1, [], 1, map[2 := DetachClear(0)]));
    s := Go(s, ClientStep(2),
            Tiny(Node(ClearValid(SIGNALLED), true, 0, 0, Leaving(0), 0, 0, true), [], Free, SignalSwap(0, SIGNALLED), 1, [], 1, map[2 := SchedRead(0, 0, true)]));
  }

  /** A trigger in the window leaves the node idle, with nothing queued and nobody about to queue it. */
  lemma TriggerCanBeLost()
    ensures exists s :: Reachable(s) && Lost(s, 0) && s.clients == map[] && forall q <- s.queues :: q.list == []
  {
    var s := Dropped();
    assert Lost(s, 0);
  }

  /** A detach in the window hangs its worker and itself. */
  lemma DetachCanHang()
    ensures exists s :: Reachable(s) && Stuck(s, 0, 0)
  {
    var s := Cleared();
    assert Stuck(s, 0, 0);
  }
}
