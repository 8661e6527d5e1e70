/**
 What the scheduler has done when it comes to rest, and exactly when a node can
 still be started or its detach posted at all.
 */
module ClusterOutcome {
  import opened NodeWord
  import opened Cluster
  import opened ClusterInv
  import opened ClusterTheorems
  import opened ClusterWindows
  import opened ClusterProgress
  import opened ClusterLiveness

  // ----- states at rest

  /** Every worker sleeps unsignalled or hangs. */
  ghost predicate Rests(s: State) {
    forall w | 0 <= w < |s.workers| :: s.workers[w].pc == Asleep(false) || HangsOnSome(s, w)
  }

  predicate WaitsForPost(s: State, c: Client) {
    c.DetachWait? && c.n in s.nodes && s.nodes[c.n].sem == 0
  }

  ghost predicate NoneHangs(s: State) {
    forall w | 0 <= w < |s.workers| :: !HangsOnSome(s, w)
  }

  /** Its node is in the hands of a worker that hangs, on it or on another one. */
  ghost predicate Caught(s: State, n: NodeId) {
    exists w :: CaughtBy(s, n, w)
  }

  ghost predicate CaughtBy(s: State, n: NodeId, w: WorkerId) {
    n in s.nodes && HangsOnSome(s, w) && (s.nodes[n].place == Held(w) || s.nodes[n].place == Leaving(w))
  }

  lemma RestsFree(s: State)
    requires Inv(s) && Rests(s)
    ensures forall q | 0 <= q < |s.queues| :: s.queues[q].holder == Free
    ensures forall w | 0 <= w < |s.workers| :: !HoldsMutex(s.workers[w].pc)
  {
    forall w | 0 <= w < |s.workers| ensures s.workers[w].pc.Asleep? || s.workers[w].pc.SignalSwap? {
      if HangsOnSome(s, w) { var n :| Stuck(s, w, n); }
    }
    forall q | 0 <= q < |s.queues| ensures s.queues[q].holder == Free {
      assert QueueOk(s, q);
    }
  }

  lemma RestPlace(s: State, n: NodeId)
    requires Inv(s) && Rests(s) && n in s.nodes
    ensures var p := s.nodes[n].place; p.Resting? || p.Closed? || p.Entering? || p.Queued? || Caught(s, n)
  {
    assert NodeOk(s, n);
    var p := s.nodes[n].place;
    if !(p.Resting? || p.Closed? || p.Entering? || p.Queued?) {
      assert WorkerOk(s, p.w);
      if HangsOnSome(s, p.w) {
        var m :| Stuck(s, p.w, m);
        assert CaughtBy(s, n, p.w);
      }
    }
  }

  /** Nothing under way changes anything exactly when the workers rest and the calls left wait for a post. */
  lemma SettledIff(s: State)
    requires Reachable(s)
    ensures Settled(s) <==> Rests(s) && forall t <- s.clients :: WaitsForPost(s, s.clients[t])
  {
    ReachableInv(s);
    if Settled(s) {
      SettledRests(s);
      RestsFree(s);
      forall t | t in s.clients ensures WaitsForPost(s, s.clients[t]) {
        assert ClientOk(s, t);
        if !WaitsForPost(s, s.clients[t]) {
          assert Enabled(s, ClientStep(t)) && UnderWay(ClientStep(t));
          ClientStepFalls(s, t);
        }
      }
    }
    if Rests(s) && forall t <- s.clients :: WaitsForPost(s, s.clients[t]) {
      forall a | UnderWay(a) && Enabled(s, a) ensures Next(s, a) == s {
        if a.WorkerStep? { StepChanges(s, a.w); }
      }
    }
  }

  lemma SettledRests(s: State)
    requires Reachable(s) && Settled(s)
    ensures Rests(s)
  {
    forall w | 0 <= w < |s.workers| && s.workers[w].pc != Asleep(false) ensures HangsOnSome(s, w) {
      if !HangsOnSome(s, w) {
        WorkerGoesOn(s, w);
        var v :| Enabled(s, WorkerStep(v)) && Next(s, WorkerStep(v)) != s;
        assert UnderWay(WorkerStep(v));
      }
    }
  }

  /** Another detach has taken the post. */
  predicate PostTaken(s: State, n: NodeId) {
    n in s.nodes && s.nodes[n].takes == 1
  }

  /**
   Settled without a hanging worker, the cluster has done everything: no node waits or
   runs, every trigger still owed is lost or came after the post, every invalid node is
   posted unless lost, and a detach waits only behind a lost trigger or another detach.
   */
  lemma SettledMeans(s: State)
    requires Reachable(s) && Settled(s) && NoneHangs(s)
    ensures forall q | 0 <= q < |s.queues| :: s.queues[q].list == []
    ensures forall n <- s.nodes :: s.nodes[n].place.Resting? || s.nodes[n].place.Closed?
    ensures forall n <- s.nodes :: s.nodes[n].owed ==> Lost(s, n) || s.nodes[n].place.Closed?
    ensures forall n <- s.nodes :: !s.nodes[n].word.valid ==> (s.nodes[n].posts == 1 <==> !Lost(s, n))
    ensures forall t <- s.clients :: Lost(s, s.clients[t].n) || PostTaken(s, s.clients[t].n)
  {
    ReachableInv(s);
    SettledIff(s);
    NoMissedWakeup(s);
    forall n | n in s.nodes
      ensures s.nodes[n].place.Resting? || s.nodes[n].place.Closed?
      ensures s.nodes[n].owed ==> Lost(s, n) || s.nodes[n].place.Closed?
      ensures !s.nodes[n].word.valid ==> (s.nodes[n].posts == 1 <==> !Lost(s, n))
    {
      RestPlace(s, n);
      assert NodeOk(s, n);
      SettledNode(s, n);
    }
    forall t | t in s.clients ensures Lost(s, s.clients[t].n) || PostTaken(s, s.clients[t].n) {
      assert ClientOk(s, t);
      assert NodeOk(s, s.clients[t].n);
    }
  }

  lemma SettledNode(s: State, n: NodeId)
    requires Reachable(s) && Settled(s) && NoneHangs(s) && n in s.nodes
    requires s.nodes[n].place.Resting? || s.nodes[n].place.Closed?
    ensures !s.nodes[n].word.valid ==> (s.nodes[n].posts == 1 <==> !Lost(s, n))
  {
    ReachableInv(s);
    SettledIff(s);
    assert NodeOk(s, n);
    if !s.nodes[n].word.valid && s.nodes[n].posts == 0 {
      DetachOnItsWay(s, n);
      forall w ensures !Stuck(s, w, n) {
        if Stuck(s, w, n) { assert HangsOnSome(s, w); }
      }
    }
  }

  // ----- starts

  /** The step starts the function of `n`. */
  predicate Starts(s: State, a: Action, n: NodeId) {
    && a.WorkerStep? && a.w < |s.workers|
    && s.workers[a.w].pc == Loop && s.workers[a.w].list != [] && s.workers[a.w].list[0] == n
  }

  predicate Started(s: State, acts: seq<Action>, n: NodeId)
    requires Runs(s, acts)
    decreases |acts|
  {
    acts != [] && (Starts(s, acts[0], n) || Started(Next(s, acts[0]), acts[1..], n))
  }

  /** The function of `n` is to be run. */
  predicate Due(s: State, n: NodeId) {
    n in s.nodes && (s.nodes[n].word.wait || StartsSoon(s, n, s.nodes[n]))
  }

  lemma DueByClient(s: State, a: Action, n: NodeId)
    requires Inv(s) && Enabled(s, a) && !a.WorkerStep? && Due(s, n)
    ensures Due(Next(s, a), n)
  {
    assert NodeOk(s, n);
    match a
    case ClientStep(t) => assert ClientOk(s, t);
    case Spurious(w) => assert WorkerOk(s, w);
    case _ =>
  }

  lemma DueByWorker(s: State, w: WorkerId, n: NodeId)
    requires Inv(s) && Enabled(s, WorkerStep(w)) && Due(s, n)
    ensures Due(DoWorker(s, w), n) || Starts(s, WorkerStep(w), n)
  {
    var pc := s.workers[w].pc;
    if OnNode(pc) && pc.n == n {
      DueOwn(s, w, n);
    } else if pc.InQueue? || pc.Loop? {
      DueTaken(s, w, n);
    } else {
      OtherNodeSame(s, w, n);
      DueElsewhere(s, w, n);
    }
  }

  lemma DueOwn(s: State, w: WorkerId, n: NodeId)
    requires Inv(s) && Enabled(s, WorkerStep(w)) && Due(s, n) && OnNode(s.workers[w].pc) && s.workers[w].pc.n == n
    ensures Due(DoWorker(s, w), n)
  {
    Local(s, WorkerStep(w), n);
  }

  lemma DueTaken(s: State, w: WorkerId, n: NodeId)
    requires Inv(s) && Enabled(s, WorkerStep(w)) && Due(s, n) && (s.workers[w].pc.InQueue? || s.workers[w].pc.Loop?)
    ensures Due(DoWorker(s, w), n) || Starts(s, WorkerStep(w), n)
  {
    Local(s, WorkerStep(w), n);
  }

  lemma DueElsewhere(s: State, w: WorkerId, n: NodeId)
    requires Enabled(s, WorkerStep(w)) && Due(s, n) && (OnNode(s.workers[w].pc) ==> s.workers[w].pc.n != n)
    requires !s.workers[w].pc.InQueue? && !s.workers[w].pc.Loop?
    requires var t := DoWorker(s, w);
             && |t.workers| == |s.workers| && n in t.nodes && t.nodes[n] == s.nodes[n]
             && (forall v | 0 <= v < |s.workers| && v != w :: t.workers[v] == s.workers[v])
    ensures Due(DoWorker(s, w), n)
  {
    var pc := DoWorker(s, w).workers[w].pc;
    assert pc != InProc(n) && pc != AfterProc(n);
  }

  lemma {:induction false} DueRun(s: State, acts: seq<Action>, n: NodeId)
    requires Inv(s) && Runs(s, acts) && Due(s, n) && !Started(s, acts, n)
    ensures Due(After(s, acts), n)
    decreases |acts|
  {
    hide Due, Starts, DoWorker;
    if acts != [] {
      NextInv(s, acts[0]);
      if acts[0].WorkerStep? { DueByWorker(s, acts[0].w, n); } else { DueByClient(s, acts[0], n); }
      DueRun(Next(s, acts[0]), acts[1..], n);
    }
  }

  /** Whatever the interleaving, once the cluster has settled without a hang every node that waited has been started. */
  lemma EveryWaitingStarts(s: State, acts: seq<Action>, n: NodeId)
    requires Reachable(s) && Runs(s, acts) && Due(s, n)
    requires Settled(After(s, acts)) && NoneHangs(After(s, acts))
    ensures Started(s, acts, n)
  {
    ReachableInv(s);
    if !Started(s, acts, n) {
      DueRun(s, acts, n);
      ReachableAfter(s, acts);
      ReachableInv(After(s, acts));
      SettledMeans(After(s, acts));
      RestingNotDue(After(s, acts), n);
    }
  }

  lemma RestingNotDue(s: State, n: NodeId)
    requires Inv(s) && n in s.nodes && (s.nodes[n].place.Resting? || s.nodes[n].place.Closed?)
    ensures !Due(s, n)
  {
    assert NodeOk(s, n);
  }

  lemma {:induction false} ReachableAfter(s: State, acts: seq<Action>)
    requires Reachable(s) && Runs(s, acts)
    ensures Reachable(After(s, acts))
    decreases |acts|
  {
    hide Reachable;
    if acts != [] {
      ReachableNext(s, acts[0]);
      ReachableAfter(Next(s, acts[0]), acts[1..]);
    }
  }

  /** And every detach was posted, unless a schedule of its node landed in the window of the idle branch. */
  lemma EveryDetachPosted(s: State, acts: seq<Action>, n: NodeId)
    requires Reachable(s) && Runs(s, acts) && !Lost(s, n) && !Doomed(s, n)
    requires Settled(After(s, acts)) && NoneHangs(After(s, acts))
    requires var t := After(s, acts); n in t.nodes && !t.nodes[n].word.valid
    ensures !HitSome(s, acts, n) ==> After(s, acts).nodes[n].posts == 1
  {
    ReachableInv(s);
    ReachableAfter(s, acts);
    SettledMeans(After(s, acts));
    LostRun(s, acts, n);
    if Lost(After(s, acts), n) { LostAtEnd(s, acts, n); }
  }

  lemma {:induction false} LostAtEnd(s: State, acts: seq<Action>, n: NodeId)
    requires Runs(s, acts) && Lost(After(s, acts), n)
    ensures LostSome(s, acts, n)
    decreases |acts|
  {
    if acts != [] { LostAtEnd(Next(s, acts[0]), acts[1..], n); }
  }
}
