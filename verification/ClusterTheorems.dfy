/**
 What the scheduler promises in every interleaving of attaches, triggers,
 detaches and any number of workers, and the two windows in which it does not.
 */
module ClusterTheorems {
  import opened NodeWord
  import opened Cluster
  import opened ClusterInv

  // ----- ownership

  ghost predicate InQueueAt(s: State, n: NodeId, q: nat, i: nat) {
    q < |s.queues| && i < |s.queues[q].list| && s.queues[q].list[i] == n
  }

  ghost predicate InWorkerAt(s: State, n: NodeId, w: WorkerId, i: nat) {
    w < |s.workers| && i < |s.workers[w].list| && s.workers[w].list[i] == n
  }

  /** The node is in no list. */
  ghost predicate Unlinked(s: State, n: NodeId) {
    && (forall q | 0 <= q < |s.queues| :: n !in s.queues[q].list)
    && (forall w | 0 <= w < |s.workers| :: n !in s.workers[w].list)
  }

  /** The function of `n` is running on worker `w`. */
  predicate Running(s: State, n: NodeId, w: WorkerId) {
    w < |s.workers| && s.workers[w].pc == InProc(n)
  }

  /** One life-cycle flag at a time, so the branch for an unknown word is dead. */
  lemma StatesExclusive(s: State, n: NodeId)
    requires Reachable(s) && n in s.nodes
    ensures OneHot(s.nodes[n].word)
    ensures forall t <- s.clients :: s.clients[t].SchedSwap? && s.clients[t].n == n && s.clients[t].seen == s.nodes[n].word
              ==> s.clients[t].seen.idle || s.clients[t].seen.run
  {
    ReachableInv(s);
    assert NodeOk(s, n);
    forall t | t in s.clients && s.clients[t].SchedSwap? && s.clients[t].n == n && s.clients[t].seen == s.nodes[n].word
      ensures s.clients[t].seen.idle || s.clients[t].seen.run
    {
      assert ClientOk(s, t);
    }
  }

  /** A node is linked at most once: in a queue only while it waits, in a worker's list only while it runs. */
  lemma LinkedOnce(s: State, n: NodeId)
    requires Reachable(s)
    ensures forall q, i, q', i' :: InQueueAt(s, n, q, i) && InQueueAt(s, n, q', i') ==> q == q' && i == i'
    ensures forall w, i, w', i' :: InWorkerAt(s, n, w, i) && InWorkerAt(s, n, w', i') ==> w == w' && i == i'
    ensures forall q, i, w, j :: InQueueAt(s, n, q, i) ==> !InWorkerAt(s, n, w, j)
    ensures forall q, i :: InQueueAt(s, n, q, i) ==> n in s.nodes && s.nodes[n].word.wait
    ensures forall w, i :: InWorkerAt(s, n, w, i) ==> n in s.nodes && s.nodes[n].word.run
  {
    ReachableInv(s);
    forall q: nat, i: nat | InQueueAt(s, n, q, i) ensures InPlace(s, n, Queued(q)) && s.nodes[n].word.wait {
      assert QueueOk(s, q);
      assert InPlace(s, n, Queued(q));
      assert NodeOk(s, n);
    }
    forall w: nat, i: nat | InWorkerAt(s, n, w, i) ensures InPlace(s, n, Held(w)) && s.nodes[n].word.run {
      assert WorkerOk(s, w);
      assert InPlace(s, n, Held(w));
      assert NodeOk(s, n);
    }
    forall q, i, q', i' | InQueueAt(s, n, q, i) && InQueueAt(s, n, q', i') ensures q == q' && i == i' {
      assert InPlace(s, n, Queued(q)) && InPlace(s, n, Queued(q'));
      assert QueueOk(s, q);
    }
    forall w, i, w', i' | InWorkerAt(s, n, w, i) && InWorkerAt(s, n, w', i') ensures w == w' && i == i' {
      assert InPlace(s, n, Held(w)) && InPlace(s, n, Held(w'));
      assert WorkerOk(s, w);
    }
  }

  /** No node is dropped: a waiting node is in a queue or in the hands of one thread that will queue or run it. */
  lemma WaitingNodeKept(s: State, n: NodeId)
    requires Reachable(s) && n in s.nodes && s.nodes[n].word.wait
    ensures || (exists q, i :: InQueueAt(s, n, q, i))
            || (exists t <- s.clients :: s.clients[t].Enqueue? && s.clients[t].n == n)
            || (exists w | 0 <= w < |s.workers| ::
                  var pc := s.workers[w].pc; (pc.PopRead? || pc.PopSwap? || pc.SignalPut?) && pc.n == n)
  {
    ReachableInv(s);
    assert NodeOk(s, n);
    match s.nodes[n].place
    case Queued(q) =>
      var i :| 0 <= i < |s.queues[q].list| && s.queues[q].list[i] == n;
      assert InQueueAt(s, n, q, i);
    case Entering(t) => assert s.clients[t].Enqueue?;
    case Popped(w) => assert s.workers[w].pc.n == n;
    case Requeuing(w) => assert s.workers[w].pc.n == n;
  }

  /** The function of a node never runs on two workers at once. */
  lemma RunsOnOneWorker(s: State, n: NodeId, v: WorkerId, w: WorkerId)
    requires Reachable(s) && Running(s, n, v) && Running(s, n, w)
    ensures v == w && n in s.nodes && s.nodes[n].word.run
  {
    ReachableInv(s);
    assert WorkerOk(s, v) && WorkerOk(s, w);
    assert InPlace(s, s.workers[v].list[0], Held(v)) && InPlace(s, s.workers[w].list[0], Held(w));
    assert NodeOk(s, n);
  }

  /** What the program asserts about worker `w`. */
  ghost predicate WorkerAsserts(s: State, w: WorkerId)
    requires w < |s.workers|
  {
    var x := s.workers[w];
    && (x.pc.PopSwap? ==> x.pc.n in s.nodes && s.nodes[x.pc.n].word.wait)
    && (x.pc == Loop && x.list != [] ==> x.list[0] in s.nodes && s.nodes[x.list[0]].word.run)
    && (x.pc == Loop && x.list == [] ==> x.workCount == 0)
  }

  /** What the program asserts about client `t`. */
  ghost predicate ClientAsserts(s: State, t: ThreadId)
    requires t in s.clients
  {
    var c := s.clients[t];
    && c.n in s.nodes
    && (c.Enqueue? ==> Unlinked(s, c.n))
    && (c.DetachWait? && s.nodes[c.n].sem > 0 ==> !s.nodes[c.n].attached)
  }

  /** The counts agree with the lists, and every assertion holds but the racy pair after idling. */
  lemma AssertionsHold(s: State)
    requires Reachable(s)
    ensures forall q | 0 <= q < |s.queues| :: s.queues[q].count == |s.queues[q].list|
    ensures forall w | 0 <= w < |s.workers| :: WorkerAsserts(s, w)
    ensures forall t <- s.clients :: ClientAsserts(s, t)
  {
    ReachableInv(s);
    forall q | 0 <= q < |s.queues| ensures s.queues[q].count == |s.queues[q].list| {
      assert QueueOk(s, q);
    }
    forall t | t in s.clients ensures ClientAsserts(s, t) {
      assert ClientOk(s, t);
      assert NodeOk(s, s.clients[t].n);
      if s.clients[t].Enqueue? { NotInLists(s, s.clients[t].n); }
    }
    forall w | 0 <= w < |s.workers| ensures WorkerAsserts(s, w) {
      assert WorkerOk(s, w);
      var x := s.workers[w];
      if x.pc.PopSwap? { assert NodeOk(s, x.pc.n); }
      if x.list != [] {
        assert InPlace(s, x.list[0], Held(w));
        assert NodeOk(s, x.list[0]);
      }
    }
  }

  lemma NotInLists(s: State, n: NodeId)
    requires Inv(s) && n in s.nodes && !s.nodes[n].place.Queued? && !s.nodes[n].place.Held?
    ensures Unlinked(s, n)
  {
    forall q | 0 <= q < |s.queues| ensures n !in s.queues[q].list {
      assert QueueOk(s, q);
      assert n in s.queues[q].list ==> InPlace(s, n, Queued(q));
    }
    forall w | 0 <= w < |s.workers| ensures n !in s.workers[w].list {
      assert WorkerOk(s, w);
      assert n in s.workers[w].list ==> InPlace(s, n, Held(w));
    }
  }

  // ----- wake-ups

  /** If every worker sleeps unsignalled and no wake-up call is under way, every queue is empty. */
  lemma NoMissedWakeup(s: State)
    requires Reachable(s)
    requires forall w | 0 <= w < |s.workers| :: s.workers[w].pc == Asleep(false)
    requires forall t <- s.clients :: !WakePending(s.clients[t])
    ensures forall q | 0 <= q < |s.queues| :: s.queues[q].list == []
  {
    ReachableInv(s);
    forall q | 0 <= q < |s.queues| ensures s.queues[q].list == [] {
      assert WakeOk(s, q);
    }
  }

  /** A worker is held up by nothing but a queue lock or a missing signal. */
  lemma OnlyLocksBlock(s: State, w: WorkerId)
    requires Reachable(s) && w < |s.workers|
    ensures Enabled(s, WorkerStep(w)) <==> !Blocked(s, w)
  {
    ReachableInv(s);
    assert WorkerOk(s, w);
    var x := s.workers[w];
    if x.pc.InQueue? { QueueHeadKnown(s, x.pc.i); }
    if x.list != [] { assert InPlace(s, x.list[0], Held(w)); }
    if x.pc.SignalPut? { assert NodeOk(s, x.pc.n); }
  }

  lemma QueueHeadKnown(s: State, i: nat)
    requires Inv(s) && i < |s.queues|
    ensures s.queues[i].list != [] ==> s.queues[i].list[0] in s.nodes
  {
    assert QueueOk(s, i);
    if s.queues[i].list != [] { assert InPlace(s, s.queues[i].list[0], Queued(i)); }
  }

  /** A held queue lock is held by a worker that can go on. */
  lemma HolderGoesOn(s: State, i: nat)
    requires Reachable(s) && i < |s.queues| && s.queues[i].holder != Free
    ensures Enabled(s, WorkerStep(s.queues[i].holder.w))
  {
    ReachableInv(s);
    assert QueueOk(s, i);
    OnlyLocksBlock(s, s.queues[i].holder.w);
  }

  // ----- detach

  /** The semaphore is posted at most once an attach; then the node is in no list and its function does not run. */
  lemma PostedOnceAndFree(s: State, n: NodeId)
    requires Reachable(s) && n in s.nodes
    ensures s.nodes[n].posts <= 1 && s.nodes[n].sem + s.nodes[n].takes == s.nodes[n].posts
    ensures s.nodes[n].posts == 1 ==>
              && !s.nodes[n].attached && !s.nodes[n].word.valid
              && Unlinked(s, n)
              && (forall w | 0 <= w < |s.workers| :: OnNode(s.workers[w].pc) ==> s.workers[w].pc.n != n)
  {
    ReachableInv(s);
    assert NodeOk(s, n);
    if s.nodes[n].posts == 1 {
      NotInLists(s, n);
      forall w | 0 <= w < |s.workers| && OnNode(s.workers[w].pc) ensures s.workers[w].pc.n != n {
        assert WorkerOk(s, w);
        if s.workers[w].list != [] { assert InPlace(s, s.workers[w].list[0], Held(w)); }
      }
    }
  }

  ghost predicate NeverAttaches(acts: seq<Action>, n: NodeId) {
    forall i | 0 <= i < |acts| :: acts[i].Attach? ==> acts[i].n != n
  }

  lemma ClosedWorkerStep(s: State, w: WorkerId, n: NodeId)
    requires Inv(s) && n in s.nodes && s.nodes[n].place.Closed? && Enabled(s, WorkerStep(w))
    ensures var s' := DoWorker(s, w); n in s'.nodes && s'.nodes[n] == s.nodes[n].(owed := s'.nodes[n].owed)
  {
    assert WorkerOk(s, w);
    var x := s.workers[w];
    if x.list != [] { assert InPlace(s, x.list[0], Held(w)); }
    if x.pc.InQueue? && s.queues[x.pc.i].list != [] {
      assert QueueOk(s, x.pc.i);
      assert InPlace(s, s.queues[x.pc.i].list[0], Queued(x.pc.i));
    }
  }

  lemma ClosedStep(s: State, a: Action, n: NodeId)
    requires Inv(s) && n in s.nodes && s.nodes[n].place.Closed? && Enabled(s, a)
    requires a.Attach? ==> a.n != n
    ensures n in Next(s, a).nodes && Next(s, a).nodes[n].place.Closed? && Next(s, a).nodes[n].posts == s.nodes[n].posts
  {
    match a
    case ClientStep(t) => assert ClientOk(s, t) && NodeOk(s, n);
    case WorkerStep(w) => ClosedWorkerStep(s, w, n);
    case _ =>
  }

  /** Once posted, no call of the node's function starts again in any continuation without a new attach. */
  lemma {:induction false} NeverStartsAgain(s: State, acts: seq<Action>, n: NodeId)
    requires Reachable(s) && n in s.nodes && s.nodes[n].posts == 1
    requires Runs(s, acts) && NeverAttaches(acts, n)
    ensures var s' := After(s, acts);
            n in s'.nodes && s'.nodes[n].posts == 1 && forall w: WorkerId :: !Running(s', n, w)
  {
    ReachableInv(s);
    assert NodeOk(s, n);
    ClosedRun(s, acts, n);
    var s' := After(s, acts);
    RunInv(s, acts);
    forall w: WorkerId ensures !Running(s', n, w) {
      if w < |s'.workers| {
        assert WorkerOk(s', w);
        assert Running(s', n, w) ==> InPlace(s', s'.workers[w].list[0], Held(w));
      }
    }
  }

  lemma {:induction false} ClosedRun(s: State, acts: seq<Action>, n: NodeId)
    requires Inv(s) && n in s.nodes && s.nodes[n].place.Closed? && s.nodes[n].posts == 1
    requires Runs(s, acts) && NeverAttaches(acts, n)
    ensures var s' := After(s, acts); n in s'.nodes && s'.nodes[n].place.Closed? && s'.nodes[n].posts == 1
    decreases |acts|
  {
    if acts != [] {
      ClosedStep(s, acts[0], n);
      NextInv(s, acts[0]);
      ClosedRun(Next(s, acts[0]), acts[1..], n);
    }
  }
}
