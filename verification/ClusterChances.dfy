/**
 Exactly when some continuation still starts a queued node, or posts a detach: it is
 the hanging workers alone that can take the chance away.
 */
module ClusterChances {
  import opened NodeWord
  import opened Cluster
  import opened ClusterInv
  import opened ClusterTheorems
  import opened ClusterWindows
  import opened ClusterProgress
  import opened ClusterLiveness
  import opened ClusterOutcome

  lemma {:induction false} RunsJoin(s: State, a: seq<Action>, b: seq<Action>)
    requires Runs(s, a) && Runs(After(s, a), b)
    ensures Runs(s, a + b) && After(s, a + b) == After(After(s, a), b)
    decreases |a|
  {
    hide Enabled, Next;
    if a == [] {
      assert a + b == b;
    } else {
      assert (a + b)[0] == a[0] && (a + b)[1..] == a[1..] + b;
      RunsJoin(Next(s, a[0]), a[1..], b);
    }
  }

  // ----- hanging workers

  /** The step clears no valid flag. */
  predicate ClearsNone(s: State, a: Action) {
    a.ClientStep? && a.t in s.clients ==> !s.clients[a.t].DetachClear?
  }

  predicate ClearNothing(s: State, acts: seq<Action>)
    requires Runs(s, acts)
    decreases |acts|
  {
    acts == [] || (ClearsNone(s, acts[0]) && ClearNothing(Next(s, acts[0]), acts[1..]))
  }

  /** A hanging worker stays as it is. */
  lemma HangStep(s: State, a: Action, w: WorkerId)
    requires Inv(s) && Enabled(s, a) && HangsOnSome(s, w)
    ensures HangsOnSome(Next(s, a), w) && w < |s.workers| && Next(s, a).workers[w] == s.workers[w]
  {
    var n :| Stuck(s, w, n);
    StuckStep(s, a, w, n);
  }

  /** And none begins to hang but by a cleared flag. */
  lemma FreeStep(s: State, a: Action, w: WorkerId)
    requires Reachable(s) && Enabled(s, a) && ClearsNone(s, a) && !HangsOnSome(s, w)
    ensures !HangsOnSome(Next(s, a), w)
  {
    hide Stuck, Reachable, Enabled, Next;
    forall n ensures !Stuck(Next(s, a), w, n) {
      assert !Stuck(s, w, n);
      StuckExactly(s, a, w, n);
    }
  }

  lemma {:induction false} FreeRun(s: State, acts: seq<Action>, w: WorkerId)
    requires Reachable(s) && Runs(s, acts) && ClearNothing(s, acts) && !HangsOnSome(s, w)
    ensures !HangsOnSome(After(s, acts), w)
    decreases |acts|
  {
    hide Reachable, Enabled, Next, ClearsNone, HangsOnSome;
    if acts != [] {
      ReachableNext(s, acts[0]);
      FreeStep(s, acts[0], w);
      FreeRun(Next(s, acts[0]), acts[1..], w);
    }
  }

  lemma {:induction false} HangRun(s: State, acts: seq<Action>, w: WorkerId)
    requires Inv(s) && Runs(s, acts) && HangsOnSome(s, w)
    ensures HangsOnSome(After(s, acts), w) && w < |s.workers| && w < |After(s, acts).workers|
    ensures After(s, acts).workers[w] == s.workers[w]
    decreases |acts|
  {
    hide Inv, Enabled, Next, HangsOnSome;
    if acts == [] {
      HangBound(s, w);
    } else {
      NextInv(s, acts[0]);
      HangStep(s, acts[0], w);
      HangRun(Next(s, acts[0]), acts[1..], w);
    }
  }

  lemma HangBound(s: State, w: WorkerId)
    requires HangsOnSome(s, w)
    ensures w < |s.workers| && s.workers[w].pc.SignalSwap?
  {
  }

  // ----- the workers alone

  ghost predicate Internal(acts: seq<Action>) {
    forall a <- acts :: a.WorkerStep? || a.Spurious?
  }

  lemma {:induction false} InternalRun(s: State, acts: seq<Action>)
    requires Runs(s, acts) && Internal(acts)
    ensures ClearNothing(s, acts) && After(s, acts).clients == s.clients
    decreases |acts|
  {
    hide DoWorker;
    if acts != [] {
      assert acts[0] in acts && forall a <- acts[1..] :: a in acts;
      if acts[0].WorkerStep? { WorkerKeepsClients(s, acts[0].w); }
      InternalRun(Next(s, acts[0]), acts[1..]);
    }
  }

  lemma WorkerKeepsClients(s: State, w: WorkerId)
    requires Enabled(s, WorkerStep(w))
    ensures DoWorker(s, w).clients == s.clients
  {
  }

  /** The queue holds a node, and the worker will look at it before it sleeps. */
  ghost predicate Watches(s: State, w: WorkerId, q: nat) {
    w < |s.workers| && q < |s.queues| && s.queues[q].list != [] && WillScan(s.workers[w], q)
  }

  lemma WatchStep(s: State, v: WorkerId, w: WorkerId, q: nat)
    requires Inv(s) && Enabled(s, WorkerStep(v)) && Watches(s, w, q)
    ensures RoundsLeft(DoWorker(s, v)) < RoundsLeft(s) || (RoundsLeft(DoWorker(s, v)) == RoundsLeft(s) && Watches(DoWorker(s, v), w, q))
  {
    if DoWorker(s, v) != s {
      WorkerStepFalls(s, v);
      if !Advances(s, v) {
        PaceKeeps(s, v);
        if v == w { WatchPace(s, w, q); }
      }
    }
  }

  lemma WatchPace(s: State, w: WorkerId, q: nat)
    requires Inv(s) && Enabled(s, WorkerStep(w)) && !Advances(s, w) && Watches(s, w, q)
    ensures w < |DoWorker(s, w).workers| && WillScan(DoWorker(s, w).workers[w], q)
  {
    assert WorkerOk(s, w);
  }

  lemma {:induction false} WatchRun(s: State, acts: seq<Action>, w: WorkerId, q: nat)
    requires Inv(s) && Runs(s, acts) && Watches(s, w, q) && forall a <- acts :: a.WorkerStep?
    ensures RoundsLeft(After(s, acts)) < RoundsLeft(s) || Watches(After(s, acts), w, q)
    decreases |acts|
  {
    hide Inv, DoWorker, RoundsLeft, Watches;
    if acts != [] {
      var t := Next(s, acts[0]);
      assert acts[0] in acts && forall a <- acts[1..] :: a in acts;
      NextInv(s, acts[0]);
      WatchStep(s, acts[0].w, w, q);
      if Watches(t, w, q) {
        WatchRun(t, acts[1..], w, q);
      }
      RoundsRun(t, acts[1..]);
    }
  }

  lemma {:induction false} RoundsRun(s: State, acts: seq<Action>)
    requires Inv(s) && Runs(s, acts) && Internal(acts)
    ensures RoundsLeft(After(s, acts)) <= RoundsLeft(s)
    decreases |acts|
  {
    hide Inv, DoWorker, RoundsLeft, Advances;
    if acts != [] {
      assert acts[0] in acts && forall a <- acts[1..] :: a in acts;
      NextInv(s, acts[0]);
      if acts[0].WorkerStep? {
        if DoWorker(s, acts[0].w) != s { WorkerStepFalls(s, acts[0].w); }
      } else {
        SpuriousRounds(s, acts[0].w);
      }
      RoundsRun(Next(s, acts[0]), acts[1..]);
    }
  }

  lemma SpuriousRounds(s: State, w: WorkerId)
    requires Enabled(s, Spurious(w))
    ensures RoundsLeft(Next(s, Spurious(w))) == RoundsLeft(s)
  {
    assert NodeRounds(Next(s, Spurious(w))) == NodeRounds(s);
  }

  /** The workers can bring themselves to rest. */
  lemma {:induction false} WorkersRest(s: State) returns (acts: seq<Action>)
    requires Reachable(s)
    ensures Runs(s, acts) && (forall a <- acts :: a.WorkerStep?) && Rests(After(s, acts))
    decreases CallsLeft(s), RoundsLeft(s), StepsLeft(s)
  {
    hide Reachable, Enabled, Next, CallsLeft, RoundsLeft, StepsLeft, HangsOnSome;
    ReachableInv(s);
    if w: nat :| w < |s.workers| && s.workers[w].pc != Asleep(false) && !HangsOnSome(s, w) {
      WorkerGoesOn(s, w);
      var v :| Enabled(s, WorkerStep(v)) && Next(s, WorkerStep(v)) != s;
      var a := WorkerStep(v);
      StepFalls(s, a);
      ReachableNext(s, a);
      acts := WorkersRest(Next(s, a));
      RunsCons(s, a, acts);
      acts := [a] + acts;
    } else {
      acts := [];
    }
  }

  /** One worker that does not hang is enough to empty every queue. */
  lemma {:induction false} Drain(s: State, w: WorkerId) returns (acts: seq<Action>)
    requires Reachable(s) && w < |s.workers| && !HangsOnSome(s, w)
    ensures Runs(s, acts) && Internal(acts) && Rests(After(s, acts))
    ensures forall q | 0 <= q < |After(s, acts).queues| :: After(s, acts).queues[q].list == []
    decreases RoundsLeft(s)
  {
    hide Reachable, Enabled, RoundsLeft, HangsOnSome;
    ReachableInv(s);
    acts := WorkersRest(s);
    var t := After(s, acts);
    ReachableAfter(s, acts);
    ReachableInv(t);
    if q: nat :| q < |t.queues| && t.queues[q].list != [] {
      InternalRun(s, acts);
      FreeRun(s, acts, w);
      RoundsRun(s, acts);
      SameWorkers(s, acts);
      var more := Round(t, w, q);
      RunsJoin(s, acts, more);
      acts := acts + more;
      var u := After(t, more);
      ReachableAfter(t, more);
      InternalRun(t, more);
      FreeRun(t, more, w);
      SameWorkers(t, more);
      var rest := Drain(u, w);
      RunsJoin(s, acts, rest);
      acts := acts + rest;
    }
  }

  lemma {:induction false} SameWorkers(s: State, acts: seq<Action>)
    requires Inv(s) && Runs(s, acts)
    ensures |After(s, acts).workers| == |s.workers|
    decreases |acts|
  {
    hide Inv, Next, Enabled;
    if acts != [] {
      NextInv(s, acts[0]);
      StepWorkers(s, acts[0]);
      SameWorkers(Next(s, acts[0]), acts[1..]);
    }
  }

  lemma StepWorkers(s: State, a: Action)
    requires Enabled(s, a)
    ensures |Next(s, a).workers| == |s.workers|
  {
  }

  /** Woken once more, the worker takes a node off a queue before it sleeps again. */
  lemma Round(s: State, w: WorkerId, q: nat) returns (acts: seq<Action>)
    requires Reachable(s) && Rests(s) && w < |s.workers| && !HangsOnSome(s, w)
    requires q < |s.queues| && s.queues[q].list != []
    ensures Runs(s, acts) && Internal(acts) && RoundsLeft(After(s, acts)) < RoundsLeft(s)
  {
    hide Reachable, RoundsLeft, HangsOnSome, DoWorker;
    var a := Spurious(w);
    var t := Next(s, a);
    ReachableNext(s, a);
    ReachableInv(t);
    SpuriousRounds(s, w);
    FreeStep(s, a, w);
    acts := WorkersRest(t);
    WatchRun(t, acts, w, q);
    InternalRun(t, acts);
    FreeRun(t, acts, w);
    SameWorkers(t, acts);
    RunsCons(s, a, acts);
    acts := [a] + acts;
  }

  // ----- starts

  ghost predicate AllHang(s: State) {
    forall w | 0 <= w < |s.workers| :: HangsOnSome(s, w)
  }

  ghost predicate SomeFree(s: State) {
    exists w: WorkerId :: w < |s.workers| && !HangsOnSome(s, w)
  }

  /** In no list and in no hands: what a node in the hands of a worker keeps while that worker hangs. */
  lemma CaughtBefore(s: State, acts: seq<Action>, n: NodeId)
    requires Reachable(s) && n in s.nodes && Runs(s, acts) && ClearNothing(s, acts) && Caught(After(s, acts), n)
    ensures Caught(s, n)
  {
    ReachableInv(s);
    ReachableAfter(s, acts);
    var t := After(s, acts);
    ReachableInv(t);
    var w :| CaughtBy(t, n, w);
    if !HangsOnSome(s, w) { FreeRun(s, acts, w); }
    HangRun(s, acts, w);
    HangBound(s, w);
    CaughtWhere(t, n, w);
    HeldWhere(s, n, w);
    assert CaughtBy(s, n, w);
  }

  predicate InHands(x: Worker, n: NodeId) {
    n in x.list || (x.pc.SignalSwap? && x.pc.n == n)
  }

  lemma CaughtWhere(s: State, n: NodeId, w: WorkerId)
    requires Inv(s) && w < |s.workers| && CaughtBy(s, n, w)
    ensures InHands(s.workers[w], n)
  {
    HangBound(s, w);
    assert NodeOk(s, n);
  }

  lemma HeldWhere(s: State, n: NodeId, w: WorkerId)
    requires Inv(s) && w < |s.workers| && n in s.nodes && InHands(s.workers[w], n)
    ensures s.nodes[n].place == Held(w) || s.nodes[n].place == Leaving(w)
  {
    assert WorkerOk(s, w);
    if n in s.workers[w].list { assert InPlace(s, n, Held(w)); }
  }

  lemma {:induction false} NoneStarts(s: State, acts: seq<Action>, n: NodeId)
    requires Inv(s) && Runs(s, acts) && AllHang(s)
    ensures !Started(s, acts, n)
    decreases |acts|
  {
    hide Inv, Next, Enabled, HangsOnSome;
    if acts != [] {
      AllHangStep(s, acts[0]);
      if acts[0].WorkerStep? && acts[0].w < |s.workers| { HangBound(s, acts[0].w); }
      NextInv(s, acts[0]);
      NoneStarts(Next(s, acts[0]), acts[1..], n);
    }
  }

  lemma AllHangStep(s: State, a: Action)
    requires Inv(s) && Enabled(s, a) && AllHang(s)
    ensures AllHang(Next(s, a))
  {
    hide Inv, Next, Enabled, HangsOnSome;
    StepWorkers(s, a);
    forall w | 0 <= w < |s.workers| ensures HangsOnSome(Next(s, a), w) {
      HangStep(s, a, w);
    }
  }

  /** A queued node is still started in some continuation exactly when not every worker hangs. */
  lemma StartIff(s: State, q: nat, n: NodeId)
    requires Reachable(s) && q < |s.queues| && n in s.queues[q].list
    ensures (exists acts :: Runs(s, acts) && Started(s, acts, n)) <==> SomeFree(s)
  {
    hide Reachable, Started, HangsOnSome, Enabled, Inv;
    ReachableInv(s);
    if SomeFree(s) {
      var acts := StartsWhenFree(s, q, n);
    } else {
      forall acts | Runs(s, acts) ensures !Started(s, acts, n) { NoneStarts(s, acts, n); }
    }
  }

  lemma StartsWhenFree(s: State, q: nat, n: NodeId) returns (acts: seq<Action>)
    requires Reachable(s) && q < |s.queues| && n in s.queues[q].list && SomeFree(s)
    ensures Runs(s, acts) && Internal(acts) && Started(s, acts, n)
  {
    hide Reachable, Started, HangsOnSome, Due, Enabled, Inv;
    ReachableInv(s);
    var w: WorkerId :| w < |s.workers| && !HangsOnSome(s, w);
    acts := Drain(s, w);
    QueuedPlace(s, q, n);
    if !Started(s, acts, n) {
      DueRun(s, acts, n);
      DueIn(After(s, acts), n);
      DrainedNotDue(s, acts, n);
    }
  }

  lemma DueIn(s: State, n: NodeId)
    requires Due(s, n)
    ensures n in s.nodes
  {
  }

  lemma QueuedPlace(s: State, q: nat, n: NodeId)
    requires Inv(s) && q < |s.queues| && n in s.queues[q].list
    ensures n in s.nodes && s.nodes[n].place == Queued(q) && Due(s, n)
  {
    assert QueueOk(s, q);
    assert InPlace(s, n, Queued(q));
    assert NodeOk(s, n);
  }

  /** At rest with every queue empty, a node that was queued has no start ahead. */
  lemma DrainedNotDue(s: State, acts: seq<Action>, n: NodeId)
    requires Reachable(s) && Runs(s, acts) && Internal(acts) && n in s.nodes && s.nodes[n].place.Queued?
    requires var t := After(s, acts); Rests(t) && (forall q | 0 <= q < |t.queues| :: t.queues[q].list == []) && n in t.nodes
    ensures !Due(After(s, acts), n)
  {
    hide Reachable, Due;
    var t := After(s, acts);
    ReachableInv(s);
    ReachableAfter(s, acts);
    ReachableInv(t);
    InternalRun(s, acts);
    RestPlace(t, n);
    NotEntering(s, t, n);
    NotQueued(t, n);
    if Caught(t, n) {
      CaughtBefore(s, acts, n);
    } else {
      RestingNotDue(t, n);
    }
  }

  lemma NotEntering(s: State, t: State, n: NodeId)
    requires Inv(s) && Inv(t) && t.clients == s.clients && n in s.nodes && n in t.nodes && !s.nodes[n].place.Entering?
    ensures !t.nodes[n].place.Entering?
  {
    forall u | u in s.clients && s.clients[u].Enqueue? ensures InPlace(s, s.clients[u].n, Entering(u)) {
      assert ClientOk(s, u);
    }
    assert NodeOk(t, n);
  }

  lemma NotQueued(t: State, n: NodeId)
    requires Inv(t) && n in t.nodes && forall q | 0 <= q < |t.queues| :: t.queues[q].list == []
    ensures !t.nodes[n].place.Queued?
  {
    assert NodeOk(t, n);
  }

  // ----- posts

  /** The step posts the detach semaphore of `n`. */
  predicate Posts(s: State, a: Action, n: NodeId) {
    a.WorkerStep? && a.w < |s.workers| && s.workers[a.w].pc == ClosePost(n)
  }

  predicate Posted(s: State, acts: seq<Action>, n: NodeId)
    requires Runs(s, acts)
    decreases |acts|
  {
    acts != [] && (Posts(s, acts[0], n) || Posted(Next(s, acts[0]), acts[1..], n))
  }

  lemma {:induction false} PostedJoin(s: State, a: seq<Action>, b: seq<Action>, n: NodeId)
    requires Runs(s, a) && Runs(After(s, a), b)
    ensures Runs(s, a + b) && (Posted(s, a + b, n) <==> Posted(s, a, n) || Posted(After(s, a), b, n))
    decreases |a|
  {
    hide Enabled, Next, Posts;
    RunsJoin(s, a, b);
    if a == [] {
      assert a + b == b;
    } else {
      assert (a + b)[0] == a[0] && (a + b)[1..] == a[1..] + b;
      PostedJoin(Next(s, a[0]), a[1..], b, n);
    }
  }

  /** Its detach has cleared the flag and is not posted. */
  predicate Open(s: State, n: NodeId) {
    n in s.nodes && !s.nodes[n].word.valid && !s.nodes[n].place.Closed?
  }

  lemma OpenStep(s: State, a: Action, n: NodeId)
    requires Inv(s) && Enabled(s, a) && Open(s, n) && !Posts(s, a, n)
    ensures Open(Next(s, a), n)
  {
    Local(s, a, n);
    match a
    case Attach(_, m, _) => if m == n { NoAttach(s, n); }
    case WorkerStep(w) => OpenByWorker(s, w, n);
    case _ =>
  }

  /** While a detach is not posted the node is not attached again. */
  lemma NoAttach(s: State, n: NodeId)
    requires Inv(s) && Open(s, n)
    ensures s.nodes[n].attached || exists u <- s.clients :: InDetach(s.clients[u], n)
  {
    assert NodeOk(s, n);
    if Clearing(s, n) {
      var u :| u in s.clients && PastClear(s.clients[u], n);
      assert InDetach(s.clients[u], n);
    }
  }

  lemma OpenByWorker(s: State, w: WorkerId, n: NodeId)
    requires Inv(s) && Enabled(s, WorkerStep(w)) && Open(s, n) && !Posts(s, WorkerStep(w), n)
    ensures Open(DoWorker(s, w), n)
  {
    var pc := s.workers[w].pc;
    if (OnNode(pc) && pc.n == n) || pc.InQueue? || pc.Loop? {
      Local(s, WorkerStep(w), n);
    } else {
      OtherNodeSame(s, w, n);
    }
  }

  lemma {:induction false} OpenRun(s: State, acts: seq<Action>, n: NodeId)
    requires Inv(s) && Runs(s, acts) && Open(s, n) && !Posted(s, acts, n)
    ensures Open(After(s, acts), n)
    decreases |acts|
  {
    hide Open, Posts, Next, Enabled;
    if acts != [] {
      NextInv(s, acts[0]);
      OpenStep(s, acts[0], n);
      OpenRun(Next(s, acts[0]), acts[1..], n);
    }
  }

  /** From the queue an invalid node goes to the post and nowhere else. */
  predicate OnPath(s: State, n: NodeId) {
    n in s.nodes && !s.nodes[n].word.valid
    && match s.nodes[n].place
       case Resting => false
       case Entering(_) => false
       case Leaving(_) => false
       case Requeuing(_) => false
       case _ => true
  }

  lemma OnPathByWorker(s: State, w: WorkerId, n: NodeId)
    requires Inv(s) && Enabled(s, WorkerStep(w)) && OnPath(s, n)
    ensures OnPath(DoWorker(s, w), n)
  {
    var pc := s.workers[w].pc;
    if (OnNode(pc) && pc.n == n) || pc.InQueue? || pc.Loop? {
      Local(s, WorkerStep(w), n);
    } else {
      OtherNodeSame(s, w, n);
    }
  }

  lemma {:induction false} OnPathRun(s: State, acts: seq<Action>, n: NodeId)
    requires Inv(s) && Runs(s, acts) && Internal(acts) && OnPath(s, n)
    ensures OnPath(After(s, acts), n)
    decreases |acts|
  {
    hide DoWorker, Inv, Enabled;
    if acts != [] {
      assert acts[0] in acts && forall a <- acts[1..] :: a in acts;
      NextInv(s, acts[0]);
      if acts[0].WorkerStep? { OnPathByWorker(s, acts[0].w, n); }
      OnPathRun(Next(s, acts[0]), acts[1..], n);
    }
  }

  lemma QueuedPosts(s: State, w: WorkerId, n: NodeId) returns (acts: seq<Action>)
    requires Reachable(s) && w < |s.workers| && !HangsOnSome(s, w)
    requires Open(s, n) && s.nodes[n].place.Queued?
    ensures Runs(s, acts) && Posted(s, acts, n)
  {
    hide Reachable, Posted, HangsOnSome, Enabled, Inv, Runs, After;
    ReachableInv(s);
    acts := Drain(s, w);
    if !Posted(s, acts, n) {
      var t := After(s, acts);
      OpenRun(s, acts, n);
      OnPathRun(s, acts, n);
      ReachableAfter(s, acts);
      ReachableInv(t);
      InternalRun(s, acts);
      RestPlace(t, n);
      NotQueued(t, n);
      CaughtBefore(s, acts, n);
      CaughtPlace(s, n);
    }
  }

  lemma CaughtPlace(s: State, n: NodeId)
    requires Caught(s, n)
    ensures n in s.nodes && (s.nodes[n].place.Held? || s.nodes[n].place.Leaving?)
  {
  }

  // ----- one more trigger

  ghost predicate LocksFree(s: State) {
    forall q | 0 <= q < |s.queues| :: s.queues[q].holder == Free
  }

  lemma {:induction false} FreshThread(ts: set<ThreadId>) returns (t: ThreadId)
    ensures t !in ts && forall u <- ts :: u < t
    decreases |ts|
  {
    if ts == {} {
      t := 0;
    } else {
      var u :| u in ts;
      t := FreshThread(ts - {u});
      assert ts == (ts - {u}) + {u};
      if t <= u { t := u + 1; }
    }
  }

  /** The thread is inside a schedule of the resting node. */
  predicate Calls(s: State, t: ThreadId, c: Client) {
    t in s.clients && s.clients[t] == c && c.n in s.nodes && s.nodes[c.n].queue < |s.queues|
  }

  lemma CallTrigger(s: State, t: ThreadId, n: NodeId)
    requires Inv(s) && n in s.nodes && s.nodes[n].place.Resting? && t !in s.clients
    ensures Enabled(s, Trigger(t, n)) && ClearsNone(s, Trigger(t, n))
    ensures var u := Next(s, Trigger(t, n));
            u.nodes == s.nodes && u.queues == s.queues && Calls(u, t, SchedRead(n, s.nodes[n].queue, false))
  {
    assert NodeOk(s, n);
  }

  lemma CallRead(s: State, t: ThreadId, n: NodeId, q: nat)
    requires Inv(s) && Calls(s, t, SchedRead(n, q, false)) && s.nodes[n].place.Resting?
    ensures Enabled(s, ClientStep(t)) && ClearsNone(s, ClientStep(t))
    ensures var u := Next(s, ClientStep(t));
            u.nodes == s.nodes && u.queues == s.queues && Calls(u, t, SchedSwap(n, q, false, s.nodes[n].word))
  {
    assert NodeOk(s, n);
  }

  lemma CallSwap(s: State, t: ThreadId, n: NodeId, q: nat)
    requires Inv(s) && n in s.nodes && Calls(s, t, SchedSwap(n, q, false, s.nodes[n].word)) && s.nodes[n].place.Resting?
    ensures Enabled(s, ClientStep(t)) && ClearsNone(s, ClientStep(t))
    ensures var u := Next(s, ClientStep(t));
            && n in u.nodes && u.nodes[n].word.valid == s.nodes[n].word.valid && u.nodes[n].place == Entering(t)
            && u.queues == s.queues
  {
    assert NodeOk(s, n);
  }

  lemma CallEnqueue(s: State, t: ThreadId, n: NodeId)
    requires Inv(s) && LocksFree(s) && n in s.nodes && s.nodes[n].place == Entering(t)
    ensures Enabled(s, ClientStep(t)) && ClearsNone(s, ClientStep(t))
    ensures var u := Next(s, ClientStep(t));
            n in u.nodes && u.nodes[n].word.valid == s.nodes[n].word.valid && u.nodes[n].place.Queued?
  {
    assert NodeOk(s, n);
    assert ClientOk(s, t);
  }

  /** A schedule puts a node that rests, or is about to enter its queue, into it. */
  lemma Requeue(s: State, n: NodeId) returns (acts: seq<Action>)
    requires Inv(s) && LocksFree(s) && Open(s, n) && (s.nodes[n].place.Resting? || s.nodes[n].place.Entering?)
    ensures Runs(s, acts) && ClearNothing(s, acts)
    ensures var t := After(s, acts); Open(t, n) && t.nodes[n].place.Queued?
  {
    hide Enabled, Next, ClearsNone, Inv, Calls;
    if s.nodes[n].place.Entering? {
      var a := ClientStep(s.nodes[n].place.t);
      CallEnqueue(s, a.t, n);
      OneClear(s, a);
      acts := [a];
    } else {
      var t := FreshThread(s.clients.Keys);
      CallTrigger(s, t, n);
      acts := RequeueBy(s, t, n, s.nodes[n].queue);
    }
  }

  lemma RequeueBy(s: State, t: ThreadId, n: NodeId, q: nat) returns (acts: seq<Action>)
    requires Inv(s) && LocksFree(s) && Open(s, n) && s.nodes[n].place.Resting? && Enabled(s, Trigger(t, n)) && ClearsNone(s, Trigger(t, n))
    requires var u := Next(s, Trigger(t, n)); u.nodes == s.nodes && u.queues == s.queues && Calls(u, t, SchedRead(n, q, false))
    ensures Runs(s, acts) && ClearNothing(s, acts)
    ensures var t := After(s, acts); Open(t, n) && t.nodes[n].place.Queued?
  {
    hide Enabled, Next, ClearsNone, Inv, Calls;
    var b, c := Trigger(t, n), ClientStep(t);
    var s1 := Next(s, b);
    NextInv(s, b);
    CallRead(s1, t, n, q);
    var s2 := Next(s1, c);
    NextInv(s1, c);
    CallSwap(s2, t, n, q);
    var s3 := Next(s2, c);
    NextInv(s2, c);
    CallEnqueue(s3, t, n);
    OneClear(s3, c);
    ClearCons(s2, c, [c]);
    ClearCons(s1, c, [c] + [c]);
    ClearCons(s, b, [c] + ([c] + [c]));
    acts := [b] + ([c] + ([c] + [c]));
  }

  lemma OneClear(s: State, a: Action)
    requires Enabled(s, a) && ClearsNone(s, a)
    ensures Runs(s, [a]) && ClearNothing(s, [a]) && After(s, [a]) == Next(s, a)
  {
    assert [a][1..] == [];
  }

  lemma ClearCons(s: State, a: Action, acts: seq<Action>)
    requires Enabled(s, a) && ClearsNone(s, a) && Runs(Next(s, a), acts) && ClearNothing(Next(s, a), acts)
    ensures Runs(s, [a] + acts) && ClearNothing(s, [a] + acts) && After(s, [a] + acts) == After(Next(s, a), acts)
  {
    assert ([a] + acts)[1..] == acts;
  }

  // ----- the condition

  lemma {:induction false} NonePosts(s: State, acts: seq<Action>, n: NodeId)
    requires Inv(s) && Runs(s, acts) && AllHang(s)
    ensures !Posted(s, acts, n)
    decreases |acts|
  {
    hide Inv, Next, Enabled, HangsOnSome;
    if acts != [] {
      AllHangStep(s, acts[0]);
      if acts[0].WorkerStep? && acts[0].w < |s.workers| { HangBound(s, acts[0].w); }
      NextInv(s, acts[0]);
      NonePosts(Next(s, acts[0]), acts[1..], n);
    }
  }

  /** What hanging hands hold they keep. */
  lemma {:induction false} CaughtNotPosted(s: State, acts: seq<Action>, n: NodeId, w: WorkerId)
    requires Inv(s) && Runs(s, acts) && n in s.nodes && w < |s.workers| && HangsOnSome(s, w) && InHands(s.workers[w], n)
    ensures !Posted(s, acts, n)
    decreases |acts|
  {
    hide Inv, Next, Enabled, HangsOnSome, InHands;
    if acts != [] {
      var t := Next(s, acts[0]);
      NextInv(s, acts[0]);
      HangStep(s, acts[0], w);
      HeldWhere(s, n, w);
      NotClosing(s, acts[0], n);
      NodesStay(s, acts[0], n);
      StepWorkers(s, acts[0]);
      CaughtNotPosted(t, acts[1..], n, w);
    }
  }

  lemma NotClosing(s: State, a: Action, n: NodeId)
    requires Inv(s) && n in s.nodes && !s.nodes[n].place.Closing?
    ensures !Posts(s, a, n)
  {
    if a.WorkerStep? && a.w < |s.workers| { assert WorkerOk(s, a.w); }
  }

  lemma NodesStay(s: State, a: Action, n: NodeId)
    requires Inv(s) && Enabled(s, a) && n in s.nodes
    ensures n in Next(s, a).nodes
  {
    Local(s, a, n);
  }

  /** A detach that has cleared the flag is still posted in some continuation exactly when its node is in no hanging hands and not every worker hangs. */
  lemma PostIff(s: State, n: NodeId)
    requires Reachable(s) && Open(s, n)
    ensures (exists acts :: Runs(s, acts) && Posted(s, acts, n)) <==> !Caught(s, n) && SomeFree(s)
  {
    hide Reachable, Posted, HangsOnSome, Enabled, Inv, Open;
    ReachableInv(s);
    if !Caught(s, n) && SomeFree(s) {
      var acts := PostsWhenFree(s, n);
    } else if Caught(s, n) {
      var w :| CaughtBy(s, n, w);
      HangBound(s, w);
      CaughtWhere(s, n, w);
      forall acts | Runs(s, acts) ensures !Posted(s, acts, n) { CaughtNotPosted(s, acts, n, w); }
    } else {
      forall acts | Runs(s, acts) ensures !Posted(s, acts, n) { NonePosts(s, acts, n); }
    }
  }

  lemma PostsWhenFree(s: State, n: NodeId) returns (acts: seq<Action>)
    requires Reachable(s) && Open(s, n) && !Caught(s, n) && SomeFree(s)
    ensures Runs(s, acts) && Posted(s, acts, n)
  {
    hide Reachable, Posted, HangsOnSome, Enabled, Inv, Runs, After, Caught;
    ReachableInv(s);
    var w: WorkerId :| w < |s.workers| && !HangsOnSome(s, w);
    acts := Drain(s, w);
    if !Posted(s, acts, n) {
      var t := After(s, acts);
      OpenRun(s, acts, n);
      ReachableAfter(s, acts);
      ReachableInv(t);
      InternalRun(s, acts);
      FreeRun(s, acts, w);
      SameWorkers(s, acts);
      RestPlace(t, n);
      NotQueued(t, n);
      RestsFree(t);
      if Caught(t, n) { CaughtBefore(s, acts, n); }
      var more := Requeue(t, n);
      var u := After(t, more);
      ReachableAfter(t, more);
      FreeRun(t, more, w);
      SameWorkers(t, more);
      var rest := QueuedPosts(u, w, n);
      PostedJoin(t, more, rest, n);
      PostedJoin(s, acts, more + rest, n);
      acts := acts + (more + rest);
    }
  }

  // ----- a step ahead is not a start or a post ahead

  lemma OneHanging(s: State, x: Node, list: seq<NodeId>, c: map<ThreadId, Client>)
    requires s == Pair(x, list, c)
    ensures AllHang(s) && !SomeFree(s)
  {
    assert Stuck(s, 0, 0);
    assert HangsOnSome(s, 0);
  }

  ghost predicate NeverStarted(s: State, n: NodeId) {
    forall acts :: Runs(s, acts) ==> !Started(s, acts, n)
  }

  ghost predicate NeverPosted(s: State, n: NodeId) {
    forall acts :: Runs(s, acts) ==> !Posted(s, acts, n)
  }

  lemma HangingNever(s: State, n: NodeId)
    requires Inv(s) && AllHang(s)
    ensures NeverStarted(s, n) && NeverPosted(s, n)
  {
    hide Inv, AllHang, Started, Posted, Runs;
    forall acts | Runs(s, acts) ensures !Started(s, acts, n) && !Posted(s, acts, n) {
      NoneStarts(s, acts, n);
      NonePosts(s, acts, n);
    }
  }

  /** With the wake-up still under way somebody goes on, but no continuation starts the queued node. */
  lemma NoStartAhead()
    ensures exists s :: Reachable(s) && GoesOn(s) && |s.queues| == 1 && s.queues[0].list == [1] && NeverStarted(s, 1)
  {
    hide Reachable, GoesOn, NeverStarted, NeverPosted, AllHang, SomeFree, Inv;
    var s := SecondQueued();
    ReachableInv(s);
    OneHanging(s, s.nodes[1], [1], map[3 := Wake(1, false, true, 0)]);
    WakerGoesOn(s, 3);
    HangingNever(s, 1);
  }

  lemma SecondCut() returns (s: State)
    ensures Reachable(s)
    ensures s == Pair(Node(ClearValid(QUEUING), true, 0, 0, Queued(0), 0, 0, true), [1], map[4 := SchedRead(1, 0, true)])
  {
    s := Behind();
    s := Go(s, Detach(4, 1), Pair(Node(QUEUING, true, 0, 0, Queued(0), 0, 0, true), [1], map[4 := DetachClear(1)]));
    s := Go(s, ClientStep(4),
            Pair(Node(ClearValid(QUEUING), true, 0, 0, Queued(0), 0, 0, true), [1], map[4 := SchedRead(1, 0, true)]));
  }

  /** The node of a detach waits in its queue, on its way to the post, but no continuation posts it. */
  lemma NoPostAhead()
    ensures exists s :: Reachable(s) && Open(s, 1) && PostComing(s, 1) && NeverPosted(s, 1)
  {
    hide Reachable, NeverStarted, NeverPosted, AllHang, SomeFree, Inv;
    var s := SecondCut();
    ReachableInv(s);
    OneHanging(s, s.nodes[1], [1], map[4 := SchedRead(1, 0, true)]);
    HangingNever(s, 1);
    assert Open(s, 1) && PostComing(s, 1);
  }

  // ----- two detaches

  /** Both threads are inside a detach of the node, or one of them is and the other has taken the post. */
  predicate Compete(s: State, t: ThreadId, u: ThreadId, n: NodeId) {
    n in s.nodes
    && var a, b := t in s.clients && InDetach(s.clients[t], n), u in s.clients && InDetach(s.clients[u], n);
       (a && b) || (s.nodes[n].takes == 1 && (a || b))
  }

  lemma CompeteStep(s: State, a: Action, t: ThreadId, u: ThreadId, n: NodeId)
    requires Inv(s) && Enabled(s, a) && t != u && Compete(s, t, u, n)
    ensures Compete(Next(s, a), t, u, n)
  {
    match a
    case WorkerStep(w) => TakesByWorker(s, w, n); WorkerKeepsClients(s, w);
    case ClientStep(_) => CompeteByClient(s, a, t, u, n);
    case _ =>
  }

  lemma CompeteByClient(s: State, a: Action, t: ThreadId, u: ThreadId, n: NodeId)
    requires Inv(s) && Enabled(s, a) && a.ClientStep? && t != u && Compete(s, t, u, n)
    ensures Compete(Next(s, a), t, u, n)
  {
    hide DoClient;
    assert NodeOk(s, n);
    DetachGoesOn(s, a.t, n);
    CallElsewhere(s, a.t, n);
  }

  /** A step of a detach keeps it under way, or takes the post. */
  lemma DetachGoesOn(s: State, t: ThreadId, n: NodeId)
    requires Enabled(s, ClientStep(t)) && n in s.nodes
    ensures var v := DoClient(s, t);
            && n in v.nodes
            && (InDetach(s.clients[t], n) && !(s.clients[t].DetachWait? && s.clients[t].n == n) ==> t in v.clients && InDetach(v.clients[t], n))
            && v.nodes[n].takes == s.nodes[n].takes + (if s.clients[t] == DetachWait(n) then 1 else 0)
  {
  }

  lemma CallElsewhere(s: State, t: ThreadId, n: NodeId)
    requires Enabled(s, ClientStep(t))
    ensures forall v :: v in s.clients && v != t ==> v in DoClient(s, t).clients && DoClient(s, t).clients[v] == s.clients[v]
  {
  }

  lemma TakesByWorker(s: State, w: WorkerId, n: NodeId)
    requires Inv(s) && Enabled(s, WorkerStep(w)) && n in s.nodes
    ensures n in DoWorker(s, w).nodes && DoWorker(s, w).nodes[n].takes == s.nodes[n].takes
  {
    Local(s, WorkerStep(w), n);
  }

  /** Of two detaches under way on one node at most one ever returns. */
  lemma {:induction false} OneDetachWaits(s: State, acts: seq<Action>, t: ThreadId, u: ThreadId, n: NodeId)
    requires Inv(s) && Runs(s, acts) && t != u && Compete(s, t, u, n)
    ensures Compete(After(s, acts), t, u, n)
    decreases |acts|
  {
    hide Inv, Next, Enabled, Compete;
    if acts != [] {
      NextInv(s, acts[0]);
      CompeteStep(s, acts[0], t, u, n);
      OneDetachWaits(Next(s, acts[0]), acts[1..], t, u, n);
    }
  }

  /** Two threads that find the node attached are both let in. */
  lemma TwoDetaches(s: State, t: ThreadId, u: ThreadId, n: NodeId)
    requires t != u && t !in s.clients && u !in s.clients && n in s.nodes && s.nodes[n].attached
    ensures Runs(s, [Detach(t, n), Detach(u, n)]) && Compete(After(s, [Detach(t, n), Detach(u, n)]), t, u, n)
  {
    var s1 := Next(s, Detach(t, n));
    var s2 := Next(s1, Detach(u, n));
    assert [Detach(t, n), Detach(u, n)][1..] == [Detach(u, n)] && [Detach(u, n)][1..] == [];
    assert Runs(s1, [Detach(u, n)]) && After(s1, [Detach(u, n)]) == s2;
    assert s2.clients[t] == DetachClear(n) && s2.clients[u] == DetachClear(n);
  }
}
