/**
 The inductive invariant of the scheduler and its preservation by every action.
 */
module ClusterInv {
  import opened Common
  import opened NodeWord
  import opened Cluster

  // ----- nodes

  predicate Waits(p: Place) {
    p.Entering? || p.Queued? || p.Popped? || p.Requeuing?
  }

  predicate Shut(p: Place) {
    p.Closing? || p.Closed?
  }

  /** The life-cycle flags follow the place. */
  predicate WordOk(x: Node) {
    && x.word.idle == x.place.Resting?
    && x.word.wait == Waits(x.place)
    && x.word.run == !(x.place.Resting? || Waits(x.place))
    && (Shut(x.place) ==> !x.word.valid)
  }

  /** The thread or list that the place names really has the node. */
  ghost predicate PlaceOk(s: State, n: NodeId, p: Place) {
    match p
    case Resting => true
    case Entering(t) => t in s.clients && s.clients[t].Enqueue? && s.clients[t].n == n
    case Queued(q) => q < |s.queues| && n in s.queues[q].list
    case Popped(w) =>
      w < |s.workers| && var pc := s.workers[w].pc; (pc.PopRead? || pc.PopSwap?) && pc.n == n
    case Taken(w) => w < |s.workers| && var pc := s.workers[w].pc; pc.PopPut? && pc.n == n
    case Held(w) => w < |s.workers| && n in s.workers[w].list
    case Leaving(w) =>
      w < |s.workers| && var pc := s.workers[w].pc; (pc.SignalSwap? || pc.IdleRead? || pc.IdleSwap?) && pc.n == n
    case Requeuing(w) => w < |s.workers| && var pc := s.workers[w].pc; pc.SignalPut? && pc.n == n
    case Closing(w) =>
      w < |s.workers| && var pc := s.workers[w].pc; (pc.CloseMark? || pc.ClosePost?) && pc.n == n
    case Closed => true
  }

  ghost predicate Clearing(s: State, n: NodeId) {
    exists t <- s.clients :: PastClear(s.clients[t], n)
  }

  ghost predicate SemOk(s: State, n: NodeId, x: Node) {
    && x.posts == (if x.place.Closed? then 1 else 0)
    && x.sem + x.takes == x.posts
    && (x.attached <==> !(x.place.Closed? || (x.place.Closing? && x.place.w < |s.workers|
                                              && s.workers[x.place.w].pc.ClosePost?)))
    && (!x.word.valid && x.takes == 0 ==> Clearing(s, n))
  }

  /** The function of the node will start, and has not started in this round. */
  predicate StartsSoon(s: State, n: NodeId, x: Node) {
    x.place.Taken? || (x.place.Held? && x.place.w < |s.workers|
                       && s.workers[x.place.w].pc != InProc(n) && s.workers[x.place.w].pc != AfterProc(n))
  }

  /** A worker that decided to idle the node has not done so yet. */
  predicate Idling(s: State, n: NodeId, x: Node) {
    x.place.Leaving? && x.place.w < |s.workers|
    && (s.workers[x.place.w].pc.IdleRead? || s.workers[x.place.w].pc.IdleSwap?)
  }

  ghost predicate OwedOk(s: State, n: NodeId, x: Node) {
    && (x.owed ==> x.word.wait || x.word.signal || StartsSoon(s, n, x))
    && (x.word.signal && (x.word.idle || Idling(s, n, x)) ==> x.owed)
  }

  ghost predicate NodeOk(s: State, n: NodeId)
    requires n in s.nodes
  {
    var x := s.nodes[n];
    && x.queue < |s.queues|
    && WordOk(x)
    && PlaceOk(s, n, x.place)
    && SemOk(s, n, x)
    && OwedOk(s, n, x)
  }

  // ----- queues, workers, clients

  ghost predicate InPlace(s: State, n: NodeId, p: Place) {
    n in s.nodes && s.nodes[n].place == p
  }

  ghost predicate QueueOk(s: State, i: nat)
    requires i < |s.queues|
  {
    var q := s.queues[i];
    && Distinct(q.list)
    && q.count == |q.list|
    && (forall n <- q.list :: InPlace(s, n, Queued(i)))
    && (q.holder.By? ==> q.holder.w < |s.workers| && var pc := s.workers[q.holder.w].pc;
                         (pc.InQueue? || pc.PopRead? || pc.PopSwap? || pc.PopPut?) && pc.i == i)
  }

  /** The worker has a node in hand that is counted but in no list. */
  predicate InHand(pc: WorkerPc) {
    pc.SignalSwap? || pc.SignalPut? || pc.IdleRead? || pc.IdleSwap? || pc.CloseMark? || pc.ClosePost?
  }

  /** The only word that sends a node back to its queue. */
  const SIGNALLED := Word(true, false, true, false, true)

  ghost predicate PcOk(s: State, w: WorkerId, x: Worker) {
    match x.pc
    case Top => x.list == []
    case Scan(i) => i <= |s.queues| && x.taken == |x.list|
    case InQueue(i) => i < |s.queues| && s.queues[i].holder == By(w) && x.taken == |x.list|
    case PopRead(i, n) =>
      i < |s.queues| && s.queues[i].holder == By(w) && x.taken == |x.list| && InPlace(s, n, Popped(w))
    case PopSwap(i, n, _) =>
      i < |s.queues| && s.queues[i].holder == By(w) && x.taken == |x.list| && InPlace(s, n, Popped(w))
    case PopPut(i, n) =>
      i < |s.queues| && s.queues[i].holder == By(w) && x.taken == |x.list| && InPlace(s, n, Taken(w))
    case Asleep(_) => x.list == [] && x.idle
    case Loop => true
    case InProc(n) => x.list != [] && x.list[0] == n
    case AfterProc(n) => x.list != [] && x.list[0] == n
    case SignalSwap(n, st) =>
      InPlace(s, n, Leaving(w)) && st == SIGNALLED && s.nodes[n].word.signal
    case SignalPut(n) => InPlace(s, n, Requeuing(w))
    case IdleRead(n) => InPlace(s, n, Leaving(w))
    case IdleSwap(n, _) => InPlace(s, n, Leaving(w))
    case CloseMark(n) => InPlace(s, n, Closing(w))
    case ClosePost(n) => InPlace(s, n, Closing(w))
  }

  ghost predicate WorkerOk(s: State, w: WorkerId)
    requires w < |s.workers|
  {
    var x := s.workers[w];
    && x.batch > 0
    && Distinct(x.list)
    && (forall n <- x.list :: InPlace(s, n, Held(w)))
    && x.workCount == |x.list| + (if InHand(x.pc) then 1 else 0)
    && PcOk(s, w, x)
  }

  ghost predicate ClientOk(s: State, t: ThreadId)
    requires t in s.clients
  {
    var c := s.clients[t];
    && c.n in s.nodes
    && (c.SchedRead? || c.SchedSwap? || c.Enqueue? ==> c.q < |s.queues|)
    && (c.SchedSwap? ==> !c.seen.wait)
    && (c.Enqueue? ==> InPlace(s, c.n, Entering(t)))
    && (c.Wake? ==> c.i < |s.workers|)
    && (PastClear(c, c.n) ==> !s.nodes[c.n].word.valid)
  }

  // ----- wake-ups

  /** The worker will look at queue `q` before it next goes to sleep. */
  predicate WillScan(x: Worker, q: nat) {
    match x.pc
    case Scan(i) => i <= q || x.taken > 0
    case InQueue(i) => i <= q || x.taken > 0
    case Asleep(woken) => woken
    case _ => true
  }

  /** Between putting a node in a queue and the end of the wake-up call. */
  predicate WakePending(c: Client) {
    c.Wake? && c.queued
  }

  ghost predicate Cared(s: State, q: nat) {
    || (exists w | 0 <= w < |s.workers| :: WillScan(s.workers[w], q))
    || (exists t <- s.clients :: WakePending(s.clients[t]))
  }

  ghost predicate WakeOk(s: State, q: nat)
    requires q < |s.queues|
  {
    s.queues[q].list != [] ==> Cared(s, q)
  }

  ghost predicate Inv(s: State) {
    && |s.workers| > 0
    && (forall n {:trigger NodeOk(s, n)} | n in s.nodes :: NodeOk(s, n))
    && (forall q {:trigger QueueOk(s, q)} | 0 <= q < |s.queues| :: QueueOk(s, q))
    && (forall w {:trigger WorkerOk(s, w)} | 0 <= w < |s.workers| :: WorkerOk(s, w))
    && (forall t {:trigger ClientOk(s, t)} | t in s.clients :: ClientOk(s, t))
    && (forall q {:trigger WakeOk(s, q)} | 0 <= q < |s.queues| :: WakeOk(s, q))
  }

  // ----- lists

  lemma TailMembers(l: seq<NodeId>)
    requires Distinct(l) && l != []
    ensures Distinct(l[1..])
    ensures forall n :: n in l[1..] <==> n in l && n != l[0]
  {
    assert l == [l[0]] + l[1..];
  }

  lemma AppendMembers(l: seq<NodeId>, x: NodeId)
    requires Distinct(l) && x !in l
    ensures Distinct(l + [x])
    ensures forall n :: n in l + [x] <==> n in l || n == x
  {
  }

  // ----- starting state

  lemma StartInv(p: nat, b: seq<nat>)
    requires |b| > 0 && forall i | 0 <= i < |b| :: b[i] > 0
    ensures Inv(Start(p, b))
  {
  }

  // ----- framing: an action touches few nodes, queues, workers and clients

  ghost predicate Same(s: State, s': State, N: set<NodeId>, Q: set<nat>, W: set<WorkerId>, T: set<ThreadId>) {
    && |s'.queues| == |s.queues| && |s'.workers| == |s.workers|
    && (forall n <- s.nodes :: n in s'.nodes && (n !in N ==> s'.nodes[n] == s.nodes[n]))
    && (forall n <- s'.nodes :: n in s.nodes || n in N)
    && (forall q | 0 <= q < |s.queues| :: q !in Q ==> s'.queues[q] == s.queues[q])
    && (forall w | 0 <= w < |s.workers| :: w !in W ==> s'.workers[w] == s.workers[w])
    && (forall t <- s.clients :: t !in T ==> t in s'.clients && s'.clients[t] == s.clients[t])
    && (forall t <- s'.clients :: t in s.clients || t in T)
  }

  predicate InSection(pc: WorkerPc, i: nat) {
    (pc.InQueue? || pc.PopRead? || pc.PopSwap? || pc.PopPut?) && pc.i == i
  }

  /** A touched worker keeps the nodes outside `N` and the locks outside `Q`. */
  ghost predicate WorkerMoves(x: Worker, y: Worker, N: set<NodeId>, Q: set<nat>) {
    && (OnNode(x.pc) ==> x.pc.n in N)
    && (OnNode(y.pc) ==> y.pc.n in N)
    && (forall m <- x.list :: m !in N ==> m in y.list)
    && (forall i | InSection(x.pc, i) :: i in Q || InSection(y.pc, i))
  }

  ghost predicate QueueMoves(x: Queue, y: Queue, N: set<NodeId>, W: set<WorkerId>) {
    && (forall m <- x.list :: m !in N ==> m in y.list)
    && (x.holder.By? && x.holder.w !in W ==> y.holder == x.holder)
  }

  /** A touched node stays and keeps its signal, or it was in a touched place. */
  predicate NodeMoves(x: Node, y: Node, Q: set<nat>, W: set<WorkerId>, T: set<ThreadId>) {
    || (y.place == x.place && (x.word.signal ==> y.word.signal))
    || match x.place
       case Resting => true
       case Closed => true
       case Entering(t) => t in T
       case Queued(q) => q in Q
       case _ => x.place.w in W
  }

  ghost predicate Moves(s: State, s': State, N: set<NodeId>, Q: set<nat>, W: set<WorkerId>, T: set<ThreadId>) {
    && Same(s, s', N, Q, W, T)
    && (forall w | 0 <= w < |s.workers| && w in W :: WorkerMoves(s.workers[w], s'.workers[w], N, Q))
    && (forall q | 0 <= q < |s.queues| && q in Q :: QueueMoves(s.queues[q], s'.queues[q], N, W))
    && (forall n <- s.nodes :: NodeMoves(s.nodes[n], s'.nodes[n], Q, W, T))
    && (forall t <- s.clients :: t in T ==> s.clients[t].n in N)
  }

  /** No node becomes valid under the feet of a detach. */
  ghost predicate ValidMoves(s: State, s': State, N: set<NodeId>, T: set<ThreadId>) {
    forall n | n in s.nodes && n in N && n in s'.nodes && s'.nodes[n].word.valid ::
      s.nodes[n].word.valid || forall t <- s.clients :: t !in T ==> !PastClear(s.clients[t], n)
  }

  lemma LiftNode(s: State, s': State, N: set<NodeId>, Q: set<nat>, W: set<WorkerId>, T: set<ThreadId>, m: NodeId)
    requires Inv(s) && Moves(s, s', N, Q, W, T) && m in s.nodes && m !in N
    ensures NodeOk(s', m)
  {
    assert NodeOk(s, m);
    if Clearing(s, m) {
      var u :| u in s.clients && PastClear(s.clients[u], m);
      assert s'.clients[u] == s.clients[u];
      assert Clearing(s', m);
    }
  }

  lemma LiftWorker(s: State, s': State, N: set<NodeId>, Q: set<nat>, W: set<WorkerId>, T: set<ThreadId>, w: WorkerId)
    requires Inv(s) && Moves(s, s', N, Q, W, T) && w < |s.workers| && w !in W
    ensures WorkerOk(s', w)
  {
    assert WorkerOk(s, w);
    var x := s.workers[w];
    assert PcOk(s', w, x);
  }

  lemma LiftQueue(s: State, s': State, N: set<NodeId>, Q: set<nat>, W: set<WorkerId>, T: set<ThreadId>, i: nat)
    requires Inv(s) && Moves(s, s', N, Q, W, T) && i < |s.queues| && i !in Q
    ensures QueueOk(s', i)
  {
    assert QueueOk(s, i);
  }

  lemma LiftClient(s: State, s': State, N: set<NodeId>, Q: set<nat>, W: set<WorkerId>, T: set<ThreadId>, t: ThreadId)
    requires Inv(s) && Moves(s, s', N, Q, W, T) && ValidMoves(s, s', N, T) && t in s.clients && t !in T
    ensures ClientOk(s', t)
  {
    assert ClientOk(s, t);
  }

  ghost predicate KeepsCare(s: State, s': State, W: set<WorkerId>, T: set<ThreadId>, q: nat)
    requires |s.workers| == |s'.workers|
  {
    && (forall w | 0 <= w < |s.workers| && w in W :: WillScan(s.workers[w], q) ==> WillScan(s'.workers[w], q))
    && (forall t <- s.clients :: t in T && WakePending(s.clients[t]) ==> t in s'.clients && WakePending(s'.clients[t]))
  }

  ghost predicate WakeMoves(s: State, s': State, W: set<WorkerId>, T: set<ThreadId>, q: nat)
    requires |s.workers| == |s'.workers| && q < |s.queues| && q < |s'.queues|
  {
    || s'.queues[q].list == []
    || Cared(s', q)
    || (s.queues[q].list != [] && KeepsCare(s, s', W, T, q))
  }

  lemma LiftWake(s: State, s': State, N: set<NodeId>, Q: set<nat>, W: set<WorkerId>, T: set<ThreadId>, q: nat)
    requires Inv(s) && Same(s, s', N, Q, W, T) && q < |s.queues| && WakeMoves(s, s', W, T, q)
    ensures WakeOk(s', q)
  {
    assert WakeOk(s, q);
    if s.queues[q].list != [] && KeepsCare(s, s', W, T, q) {
      if w :| 0 <= w < |s.workers| && WillScan(s.workers[w], q) {
        assert WillScan(s'.workers[w], q);
      } else {
        var t :| t in s.clients && WakePending(s.clients[t]);
        assert WakePending(s'.clients[t]);
      }
    }
  }

  /** What an action must show: its frame, and the parts it touched. */
  lemma Conclude(s: State, s': State, N: set<NodeId>, Q: set<nat>, W: set<WorkerId>, T: set<ThreadId>)
    requires Inv(s) && Moves(s, s', N, Q, W, T)
    requires forall n <- s'.nodes :: n in N ==> NodeOk(s', n)
    requires forall q | 0 <= q < |s'.queues| && q in Q :: QueueOk(s', q)
    requires forall w | 0 <= w < |s'.workers| && w in W :: WorkerOk(s', w)
    requires forall t <- s'.clients :: t in T ==> ClientOk(s', t)
    requires ValidMoves(s, s', N, T)
    requires forall q | 0 <= q < |s'.queues| :: WakeMoves(s, s', W, T, q)
    ensures Inv(s')
  {
    forall m <- s'.nodes ensures NodeOk(s', m) {
      if m !in N { LiftNode(s, s', N, Q, W, T, m); }
    }
    forall q | 0 <= q < |s'.queues| ensures QueueOk(s', q) && WakeOk(s', q) {
      if q !in Q { LiftQueue(s, s', N, Q, W, T, q); }
      LiftWake(s, s', N, Q, W, T, q);
    }
    forall w | 0 <= w < |s'.workers| ensures WorkerOk(s', w) {
      if w !in W { LiftWorker(s, s', N, Q, W, T, w); }
    }
    forall t <- s'.clients ensures ClientOk(s', t) {
      if t !in T {
        assert ClientOk(s, t);
        LiftClient(s, s', N, Q, W, T, t);
      }
    }
  }

  // ----- client actions

  /** The client goes on as `d`, or returns. */
  function Goes(s: State, t: ThreadId, y: Node, d: Option<Client>): State
    requires t in s.clients
  {
    SetNode(s, s.clients[t].n, y).(clients := if d.Some? then s.clients[t := d.value] else s.clients - {t})
  }

  ghost predicate AllCared(s: State) {
    forall q | 0 <= q < |s.queues| :: Cared(s, q)
  }

  /** A step of client `t` that changes only its node and itself. */
  lemma ClientMove(s: State, t: ThreadId, y: Node, d: Option<Client>)
    requires Inv(s) && t in s.clients && s.clients[t].n in s.nodes
    requires var c := s.clients[t]; var x := s.nodes[c.n]; var s' := Goes(s, t, y, d);
             && NodeMoves(x, y, {}, {}, {t}) && (y.word.valid ==> x.word.valid)
             && NodeOk(s', c.n)
             && (d.Some? ==> d.value.n == c.n && ClientOk(s', t))
             && (WakePending(c) ==> (d.Some? && WakePending(d.value)) || AllCared(s'))
    ensures Inv(Goes(s, t, y, d))
  {
    var s' := Goes(s, t, y, d);
    var n := s.clients[t].n;
    assert NodeOk(s, n);
    forall q | 0 <= q < |s'.queues| ensures WakeMoves(s, s', {}, {t}, q) {
    }
    Conclude(s, s', {n}, {}, {}, {t});
  }

  lemma TriggerInv(s: State, t: ThreadId, n: NodeId)
    requires Inv(s) && Enabled(s, Trigger(t, n))
    ensures Inv(Next(s, Trigger(t, n)))
  {
    assert NodeOk(s, n);
    Conclude(s, Next(s, Trigger(t, n)), {}, {}, {}, {t});
  }

  lemma DetachInv(s: State, t: ThreadId, n: NodeId)
    requires Inv(s) && Enabled(s, Detach(t, n))
    ensures Inv(DoDetach(s, t, n))
  {
    if s.nodes[n].attached {
      DetachParts(s, t, n);
      Conclude(s, DoDetach(s, t, n), {}, {}, {}, {t});
    }
  }

  lemma DetachParts(s: State, t: ThreadId, n: NodeId)
    requires Inv(s) && Enabled(s, Detach(t, n)) && s.nodes[n].attached
    ensures var s' := DoDetach(s, t, n); t in s'.clients && ClientOk(s', t) && Moves(s, s', {}, {}, {}, {t})
  {
    assert NodeOk(s, n);
  }

  lemma AttachInv(s: State, t: ThreadId, n: NodeId, q: nat)
    requires Inv(s) && Enabled(s, Attach(t, n, q))
    ensures Inv(DoAttach(s, t, n, q))
  {
    ReattachClosed(s, n);
    AttachParts(s, t, n, q);
    Conclude(s, DoAttach(s, t, n, q), {n}, {}, {}, {t});
  }

  lemma AttachParts(s: State, t: ThreadId, n: NodeId, q: nat)
    requires Inv(s) && Enabled(s, Attach(t, n, q))
    requires n in s.nodes ==> s.nodes[n].place.Closed? && s.nodes[n].sem == 0
    ensures var s' := DoAttach(s, t, n, q); NodeOk(s', n) && ClientOk(s', t) && Moves(s, s', {n}, {}, {}, {t})
  {
  }

  /** An attached node can only be attached again when nothing of it is left over. */
  lemma ReattachClosed(s: State, n: NodeId)
    requires Inv(s)
    requires n in s.nodes ==> !s.nodes[n].attached && forall u <- s.clients :: !InDetach(s.clients[u], n)
    ensures n in s.nodes ==> s.nodes[n].place.Closed? && s.nodes[n].sem == 0
  {
    if n in s.nodes { assert NodeOk(s, n); }
  }

  /** A detach stays visible until it takes the semaphore. */
  lemma LiftClearing(s: State, s': State, t: ThreadId)
    requires Inv(s) && t in s.clients
    requires forall u <- s.clients :: u != t ==> u in s'.clients && s'.clients[u] == s.clients[u]
    requires PastClear(s.clients[t], s.clients[t].n) ==> t in s'.clients && PastClear(s'.clients[t], s.clients[t].n)
    ensures Clearing(s, s.clients[t].n) ==> Clearing(s', s.clients[t].n)
  {
    var n := s.clients[t].n;
    if Clearing(s, n) {
      var u :| u in s.clients && PastClear(s.clients[u], n);
      assert u in s'.clients && PastClear(s'.clients[u], n);
    }
  }

  function Then(n: NodeId, det: bool): Option<Client> {
    if det then Some(DetachWait(n)) else None
  }

  lemma SchedReadInv(s: State, t: ThreadId, c: Client)
    requires Inv(s) && Enabled(s, ClientStep(t)) && c == s.clients[t] && c.SchedRead?
    ensures Inv(DoSchedRead(s, t, c))
  {
    assert ClientOk(s, t) && NodeOk(s, c.n);
    var s' := DoSchedRead(s, t, c);
    var x := s.nodes[c.n];
    LiftClearing(s, s', t);
    var y := if x.word.wait then x.(owed := true) else x;
    var d := if x.word.wait then Then(c.n, c.det) else Some(SchedSwap(c.n, c.q, c.det, x.word));
    assert s'.nodes == s.nodes[c.n := y];
    assert s' == Goes(s, t, y, d);
    assert NodeOk(s', c.n);
    ClientMove(s, t, y, d);
  }

  /** A step of client `t` on a node whose worker, if any, goes on undisturbed. */
  lemma SameHands(s: State, t: ThreadId, y: Node, d: Option<Client>)
    requires Inv(s) && t in s.clients && s.clients[t].n in s.nodes
    requires var c := s.clients[t]; var x := s.nodes[c.n];
             && (PastClear(c, c.n) ==> d.Some? && PastClear(d.value, c.n))
             && y == x.(word := y.word, owed := y.owed)
             && x.place != Entering(t)
             && WordOk(y) && (y.word.valid == x.word.valid)
             && OwedOk(s, c.n, y)
    ensures NodeOk(Goes(s, t, y, d), s.clients[t].n)
  {
    var s' := Goes(s, t, y, d);
    assert NodeOk(s, s.clients[t].n);
    LiftClearing(s, s', t);
  }

  lemma SchedSwapInv(s: State, t: ThreadId, c: Client)
    requires Inv(s) && Enabled(s, ClientStep(t)) && c == s.clients[t] && c.SchedSwap?
    ensures Inv(DoSchedSwap(s, t, c))
  {
    assert ClientOk(s, t) && NodeOk(s, c.n);
    var x := s.nodes[c.n];
    if x.word != c.seen {
      var d := Some(SchedRead(c.n, c.q, c.det));
      SameHands(s, t, x, d);
      assert DoSchedSwap(s, t, c).nodes == s.nodes[c.n := x];
      ClientMove(s, t, x, d);
    } else if c.seen.idle {
      ClaimInv(s, t, c);
    } else {
      var y := x.(word := SetSignal(x.word), owed := true);
      var d := Some(Wake(c.n, c.det, false, 0));
      SameHands(s, t, y, d);
      ClientMove(s, t, y, d);
    }
  }

  lemma ClaimInv(s: State, t: ThreadId, c: Client)
    requires Inv(s) && Enabled(s, ClientStep(t)) && c == s.clients[t] && c.SchedSwap?
    requires s.nodes[c.n].word == c.seen && c.seen.idle
    ensures Inv(DoSchedSwap(s, t, c))
  {
    assert ClientOk(s, t) && NodeOk(s, c.n);
    var x := s.nodes[c.n];
    var y := x.(word := IdleToWait(c.seen), place := Entering(t), owed := true);
    var d := Some(Enqueue(c.n, c.q, c.det));
    LiftClearing(s, Goes(s, t, y, d), t);
    ClientMove(s, t, y, d);
  }

  lemma EnqueueInv(s: State, t: ThreadId, c: Client)
    requires Inv(s) && Enabled(s, ClientStep(t)) && c == s.clients[t] && c.Enqueue?
    ensures Inv(DoEnqueue(s, t, c))
  {
    EnqueueParts(s, t, c);
    var s' := DoEnqueue(s, t, c);
    assert WakePending(s'.clients[t]);
    Conclude(s, s', {c.n}, {c.q}, {}, {t});
  }

  lemma EnqueueParts(s: State, t: ThreadId, c: Client)
    requires Inv(s) && Enabled(s, ClientStep(t)) && c == s.clients[t] && c.Enqueue?
    ensures InPlace(s, c.n, Entering(t))
    ensures var s' := DoEnqueue(s, t, c); NodeOk(s', c.n) && QueueOk(s', c.q) && ClientOk(s', t)
  {
    assert ClientOk(s, t) && NodeOk(s, c.n) && QueueOk(s, c.q);
    LiftClearing(s, DoEnqueue(s, t, c), t);
    assert c.n !in s.queues[c.q].list;
    AppendMembers(s.queues[c.q].list, c.n);
  }

  lemma ClearInv(s: State, t: ThreadId, c: Client)
    requires Inv(s) && Enabled(s, ClientStep(t)) && c == s.clients[t] && c.DetachClear?
    ensures Inv(DoClear(s, t, c))
  {
    assert ClientOk(s, t) && NodeOk(s, c.n);
    var x := s.nodes[c.n];
    var y := x.(word := ClearValid(x.word));
    var d := Some(SchedRead(c.n, x.queue, true));
    assert PastClear(Goes(s, t, y, d).clients[t], c.n);
    ClientMove(s, t, y, d);
  }

  lemma WaitInv(s: State, t: ThreadId, c: Client)
    requires Inv(s) && Enabled(s, ClientStep(t)) && c == s.clients[t] && c.DetachWait?
    ensures Inv(DoWait(s, t, c))
  {
    assert ClientOk(s, t) && NodeOk(s, c.n);
    var x := s.nodes[c.n];
    ClientMove(s, t, x.(sem := x.sem - 1, takes := x.takes + 1), None);
  }

  /** The signal itself. */
  lemma SignalledInv(s: State, i: WorkerId)
    requires Inv(s) && i < |s.workers| && !HoldsMutex(s.workers[i].pc)
    ensures Inv(SetWorker(s, i, Signalled(s.workers[i])))
  {
    var s' := SetWorker(s, i, Signalled(s.workers[i]));
    if s.workers[i].pc.Asleep? {
      assert WorkerOk(s, i);
      assert WorkerOk(s', i);
      Conclude(s, s', {}, {}, {i}, {});
    } else {
      assert s' == s;
    }
  }

  lemma WakeInv(s: State, t: ThreadId, c: Client)
    requires Inv(s) && Enabled(s, ClientStep(t)) && c == s.clients[t] && c.Wake?
    ensures Inv(DoWake(s, t, c))
  {
    assert ClientOk(s, t);
    var k := s.workers[c.i];
    var s1 := if k.idle then SetWorker(s, c.i, Signalled(k)) else s;
    if k.idle {
      SignalledInv(s, c.i);
    } else {
      assert WorkerOk(s, c.i);
    }
    assert ClientOk(s1, t) && NodeOk(s1, c.n);
    var x := s1.nodes[c.n];
    var d := if !k.idle && c.i + 1 < |s.workers| then Some(c.(i := c.i + 1)) else Then(c.n, c.det);
    var s' := Goes(s1, t, x, d);
    assert s'.nodes == s.nodes;
    assert DoWake(s, t, c) == s';
    SameHands(s1, t, x, d);
    forall q | 0 <= q < |s'.queues| ensures Cared(s', q) {
      assert WillScan(s'.workers[c.i], q);
    }
    ClientMove(s1, t, x, d);
  }

  lemma ClientInv(s: State, t: ThreadId)
    requires Inv(s) && Enabled(s, ClientStep(t))
    ensures Inv(DoClient(s, t))
  {
    var c := s.clients[t];
    match c
    case SchedRead(_, _, _) => SchedReadInv(s, t, c);
    case SchedSwap(_, _, _, _) => SchedSwapInv(s, t, c);
    case Enqueue(_, _, _) => EnqueueInv(s, t, c);
    case Wake(_, _, _, _) => WakeInv(s, t, c);
    case DetachClear(_) => ClearInv(s, t, c);
    case DetachWait(_) => WaitInv(s, t, c);
  }

  // ----- worker actions

  /** A step of worker `w` that changes only itself, and perhaps one node and one queue. */
  lemma WorkerMove(s: State, s': State, w: WorkerId, N: set<NodeId>, Q: set<nat>)
    requires Inv(s) && w < |s.workers| && s'.clients == s.clients
    requires Same(s, s', N, Q, {w}, {})
    requires WorkerMoves(s.workers[w], s'.workers[w], N, Q) && WorkerOk(s', w)
    requires forall q | 0 <= q < |s.queues| && q in Q ::
      QueueMoves(s.queues[q], s'.queues[q], N, {w}) && QueueOk(s', q)
    requires forall n | n in N ::
      && n in s.nodes && n in s'.nodes && NodeOk(s', n)
      && NodeMoves(s.nodes[n], s'.nodes[n], Q, {w}, {}) && s'.nodes[n].word.valid == s.nodes[n].word.valid
    requires forall q | 0 <= q < |s.queues| ::
      s'.queues[q].list == [] || WillScan(s'.workers[w], q)
      || (s.queues[q].list != [] && !WillScan(s.workers[w], q))
    ensures Inv(s')
  {
    forall q | 0 <= q < |s'.queues| ensures WakeMoves(s, s', {w}, {}, q) {
    }
    Conclude(s, s', N, Q, {w}, {});
  }

  lemma TopInv(s: State, w: WorkerId)
    requires Inv(s) && Enabled(s, WorkerStep(w)) && (s.workers[w].pc.Top? || s.workers[w].pc.Asleep?)
    ensures Inv(DoWorker(s, w))
  {
    assert WorkerOk(s, w);
    WorkerMove(s, DoWorker(s, w), w, {}, {});
  }

  lemma SpuriousInv(s: State, w: WorkerId)
    requires Inv(s) && Enabled(s, Spurious(w))
    ensures Inv(Next(s, Spurious(w)))
  {
    assert WorkerOk(s, w);
    WorkerMove(s, Next(s, Spurious(w)), w, {}, {});
  }

  lemma ScanInv(s: State, w: WorkerId, i: nat)
    requires Inv(s) && Enabled(s, WorkerStep(w)) && s.workers[w].pc == Scan(i)
    ensures Inv(DoScan(s, w, i))
  {
    if i < |s.queues| {
      ScanParts(s, w, i);
      WorkerMove(s, DoScan(s, w, i), w, {}, {i});
    } else {
      ScanEnd(s, w, i);
    }
  }

  lemma ScanEnd(s: State, w: WorkerId, i: nat)
    requires Inv(s) && Enabled(s, WorkerStep(w)) && s.workers[w].pc == Scan(i) && i >= |s.queues|
    ensures Inv(DoScan(s, w, i))
  {
    assert WorkerOk(s, w);
    WorkerMove(s, DoScan(s, w, i), w, {}, {});
  }

  lemma ScanParts(s: State, w: WorkerId, i: nat)
    requires Inv(s) && Enabled(s, WorkerStep(w)) && s.workers[w].pc == Scan(i) && i < |s.queues|
    ensures WorkerOk(DoScan(s, w, i), w) && QueueOk(DoScan(s, w, i), i)
  {
    assert WorkerOk(s, w) && QueueOk(s, i);
  }

  lemma PopInv(s: State, w: WorkerId, i: nat)
    requires Inv(s) && Enabled(s, WorkerStep(w)) && s.workers[w].pc == InQueue(i)
    ensures Inv(DoPop(s, w, i))
  {
    if s.queues[i].list == [] {
      PopNone(s, w, i);
    } else {
      PopNode(s, w, i);
      WorkerMove(s, DoPop(s, w, i), w, {s.queues[i].list[0]}, {i});
    }
  }

  lemma PopNone(s: State, w: WorkerId, i: nat)
    requires Inv(s) && Enabled(s, WorkerStep(w)) && s.workers[w].pc == InQueue(i) && s.queues[i].list == []
    ensures Inv(DoPop(s, w, i))
  {
    assert WorkerOk(s, w) && QueueOk(s, i);
    WorkerMove(s, DoPop(s, w, i), w, {}, {i});
  }

  lemma PopNode(s: State, w: WorkerId, i: nat)
    requires Inv(s) && Enabled(s, WorkerStep(w)) && s.workers[w].pc == InQueue(i) && s.queues[i].list != []
    ensures var n := s.queues[i].list[0]; InPlace(s, n, Queued(i)) && NodeOk(s, n) && NodeOk(DoPop(s, w, i), n)
    ensures QueueOk(DoPop(s, w, i), i) && WorkerOk(DoPop(s, w, i), w)
    ensures forall m <- s.queues[i].list :: m != s.queues[i].list[0] ==> m in DoPop(s, w, i).queues[i].list
  {
    assert WorkerOk(s, w) && QueueOk(s, i);
    var l := s.queues[i].list;
    TailMembers(l);
    assert InPlace(s, l[0], Queued(i));
    assert NodeOk(s, l[0]);
  }

  lemma PopReadInv(s: State, w: WorkerId, i: nat, n: NodeId)
    requires Inv(s) && Enabled(s, WorkerStep(w)) && s.workers[w].pc == PopRead(i, n)
    ensures Inv(DoWorker(s, w))
  {
    assert WorkerOk(s, w) && NodeOk(s, n);
    WorkerMove(s, DoWorker(s, w), w, {n}, {});
  }

  lemma PopSwapInv(s: State, w: WorkerId, i: nat, n: NodeId, seen: Word)
    requires Inv(s) && Enabled(s, WorkerStep(w)) && s.workers[w].pc == PopSwap(i, n, seen)
    ensures Inv(DoPopSwap(s, w, i, n, seen))
  {
    PopSwapNode(s, w, i, n, seen);
    WorkerMove(s, DoPopSwap(s, w, i, n, seen), w, {n}, {});
  }

  lemma PopSwapNode(s: State, w: WorkerId, i: nat, n: NodeId, seen: Word)
    requires Inv(s) && Enabled(s, WorkerStep(w)) && s.workers[w].pc == PopSwap(i, n, seen)
    ensures InPlace(s, n, Popped(w)) && i < |s.queues|
    ensures NodeOk(DoPopSwap(s, w, i, n, seen), n) && WorkerOk(DoPopSwap(s, w, i, n, seen), w)
  {
    assert WorkerOk(s, w) && NodeOk(s, n);
  }

  lemma PopPutInv(s: State, w: WorkerId, i: nat, n: NodeId)
    requires Inv(s) && Enabled(s, WorkerStep(w)) && s.workers[w].pc == PopPut(i, n)
    ensures Inv(DoPopPut(s, w, i, n))
  {
    PopPutParts(s, w, i, n);
    WorkerMove(s, DoPopPut(s, w, i, n), w, {n}, {i});
  }

  lemma PopPutParts(s: State, w: WorkerId, i: nat, n: NodeId)
    requires Inv(s) && Enabled(s, WorkerStep(w)) && s.workers[w].pc == PopPut(i, n)
    ensures InPlace(s, n, Taken(w)) && s.queues[i].holder == By(w)
    ensures var s' := DoPopPut(s, w, i, n); NodeOk(s', n) && QueueOk(s', i) && WorkerOk(s', w)
  {
    assert WorkerOk(s, w) && NodeOk(s, n) && QueueOk(s, i);
    assert n !in s.workers[w].list;
    AppendMembers(s.workers[w].list, n);
  }

  lemma LoopInv(s: State, w: WorkerId)
    requires Inv(s) && Enabled(s, WorkerStep(w)) && s.workers[w].pc == Loop
    ensures Inv(DoLoop(s, w))
  {
    assert WorkerOk(s, w);
    if s.workers[w].list == [] {
      WorkerMove(s, DoLoop(s, w), w, {}, {});
    } else {
      BeginInv(s, w, s.workers[w].list[0]);
    }
  }

  lemma BeginInv(s: State, w: WorkerId, n: NodeId)
    requires Inv(s) && Enabled(s, WorkerStep(w)) && s.workers[w].pc == Loop
    requires s.workers[w].list != [] && s.workers[w].list[0] == n
    ensures Inv(DoLoop(s, w))
  {
    BeginNode(s, w, n);
    WorkerMove(s, DoLoop(s, w), w, {n}, {});
  }

  lemma BeginNode(s: State, w: WorkerId, n: NodeId)
    requires Inv(s) && Enabled(s, WorkerStep(w)) && s.workers[w].pc == Loop
    requires s.workers[w].list != [] && s.workers[w].list[0] == n
    ensures InPlace(s, n, Held(w)) && NodeOk(DoLoop(s, w), n) && WorkerOk(DoLoop(s, w), w)
  {
    assert WorkerOk(s, w);
    assert InPlace(s, n, Held(w));
    assert NodeOk(s, n);
  }

  lemma InProcInv(s: State, w: WorkerId, n: NodeId)
    requires Inv(s) && Enabled(s, WorkerStep(w)) && s.workers[w].pc == InProc(n)
    ensures Inv(DoWorker(s, w))
  {
    assert WorkerOk(s, w);
    assert InPlace(s, s.workers[w].list[0], Held(w));
    assert NodeOk(s, n);
    WorkerMove(s, DoWorker(s, w), w, {n}, {});
  }

  lemma AfterProcInv(s: State, w: WorkerId, n: NodeId)
    requires Inv(s) && Enabled(s, WorkerStep(w)) && s.workers[w].pc == AfterProc(n)
    ensures Inv(DoAfterProc(s, w, n))
  {
    AfterProcNode(s, w, n);
    WorkerMove(s, DoAfterProc(s, w, n), w, {n}, {});
  }

  lemma AfterProcNode(s: State, w: WorkerId, n: NodeId)
    requires Inv(s) && Enabled(s, WorkerStep(w)) && s.workers[w].pc == AfterProc(n)
    ensures InPlace(s, n, Held(w)) && NodeOk(DoAfterProc(s, w, n), n) && WorkerOk(DoAfterProc(s, w, n), w)
    ensures forall m <- s.workers[w].list :: m != n ==> m in DoAfterProc(s, w, n).workers[w].list
  {
    assert WorkerOk(s, w);
    assert InPlace(s, s.workers[w].list[0], Held(w));
    AfterProcWorker(s, w, n);
    assert NodeOk(s, n);
  }

  lemma AfterProcWorker(s: State, w: WorkerId, n: NodeId)
    requires Inv(s) && Enabled(s, WorkerStep(w)) && s.workers[w].pc == AfterProc(n)
    ensures WorkerOk(DoAfterProc(s, w, n), w)
    ensures forall m <- s.workers[w].list :: m != n ==> m in DoAfterProc(s, w, n).workers[w].list
  {
    assert WorkerOk(s, w);
    var l := s.workers[w].list;
    assert InPlace(s, l[0], Held(w));
    assert NodeOk(s, n);
    TailMembers(l);
    var s' := DoAfterProc(s, w, n);
    assert s'.workers[w].list == l[1..];
    forall m | m in l[1..] ensures InPlace(s', m, Held(w)) {
      assert m in l && m != n;
      assert InPlace(s, m, Held(w));
    }
  }

  lemma SignalSwapInv(s: State, w: WorkerId, n: NodeId, st: Word)
    requires Inv(s) && Enabled(s, WorkerStep(w)) && s.workers[w].pc == SignalSwap(n, st)
    ensures Inv(DoSignalSwap(s, w, n, st))
  {
    SignalSwapParts(s, w, n, st);
    WorkerMove(s, DoSignalSwap(s, w, n, st), w, {n}, {});
  }

  lemma SignalSwapParts(s: State, w: WorkerId, n: NodeId, st: Word)
    requires Inv(s) && Enabled(s, WorkerStep(w)) && s.workers[w].pc == SignalSwap(n, st)
    ensures InPlace(s, n, Leaving(w))
    ensures NodeOk(DoSignalSwap(s, w, n, st), n) && WorkerOk(DoSignalSwap(s, w, n, st), w)
  {
    assert WorkerOk(s, w) && NodeOk(s, n);
  }

  lemma SignalPutInv(s: State, w: WorkerId, n: NodeId)
    requires Inv(s) && Enabled(s, WorkerStep(w)) && s.workers[w].pc == SignalPut(n)
    ensures Inv(DoSignalPut(s, w, n))
  {
    SignalPutParts(s, w, n);
    WorkerMove(s, DoSignalPut(s, w, n), w, {n}, {s.nodes[n].queue});
  }

  lemma SignalPutParts(s: State, w: WorkerId, n: NodeId)
    requires Inv(s) && Enabled(s, WorkerStep(w)) && s.workers[w].pc == SignalPut(n)
    ensures InPlace(s, n, Requeuing(w))
    ensures var s' := DoSignalPut(s, w, n); NodeOk(s', n) && QueueOk(s', s.nodes[n].queue) && WorkerOk(s', w)
  {
    var q := s.nodes[n].queue;
    assert WorkerOk(s, w) && NodeOk(s, n) && QueueOk(s, q);
    assert n !in s.queues[q].list;
    AppendMembers(s.queues[q].list, n);
  }

  lemma IdleReadInv(s: State, w: WorkerId, n: NodeId)
    requires Inv(s) && Enabled(s, WorkerStep(w)) && s.workers[w].pc == IdleRead(n)
    ensures Inv(DoWorker(s, w))
  {
    assert WorkerOk(s, w) && NodeOk(s, n);
    WorkerMove(s, DoWorker(s, w), w, {n}, {});
  }

  lemma IdleSwapInv(s: State, w: WorkerId, n: NodeId, seen: Word)
    requires Inv(s) && Enabled(s, WorkerStep(w)) && s.workers[w].pc == IdleSwap(n, seen)
    ensures Inv(DoIdleSwap(s, w, n, seen))
  {
    IdleSwapNode(s, w, n, seen);
    WorkerMove(s, DoIdleSwap(s, w, n, seen), w, {n}, {});
  }

  lemma IdleSwapNode(s: State, w: WorkerId, n: NodeId, seen: Word)
    requires Inv(s) && Enabled(s, WorkerStep(w)) && s.workers[w].pc == IdleSwap(n, seen)
    ensures InPlace(s, n, Leaving(w))
    ensures NodeOk(DoIdleSwap(s, w, n, seen), n) && WorkerOk(DoIdleSwap(s, w, n, seen), w)
  {
    assert WorkerOk(s, w) && NodeOk(s, n);
  }

  lemma CloseMarkInv(s: State, w: WorkerId, n: NodeId)
    requires Inv(s) && Enabled(s, WorkerStep(w)) && s.workers[w].pc == CloseMark(n)
    ensures Inv(DoWorker(s, w))
  {
    CloseMarkParts(s, w, n);
    WorkerMove(s, DoWorker(s, w), w, {n}, {});
  }

  lemma CloseMarkParts(s: State, w: WorkerId, n: NodeId)
    requires Inv(s) && Enabled(s, WorkerStep(w)) && s.workers[w].pc == CloseMark(n)
    ensures InPlace(s, n, Closing(w)) && NodeOk(DoWorker(s, w), n) && WorkerOk(DoWorker(s, w), w)
  {
    assert WorkerOk(s, w) && NodeOk(s, n);
  }

  lemma ClosePostInv(s: State, w: WorkerId, n: NodeId)
    requires Inv(s) && Enabled(s, WorkerStep(w)) && s.workers[w].pc == ClosePost(n)
    ensures Inv(DoClosePost(s, w, n))
  {
    assert WorkerOk(s, w) && NodeOk(s, n);
    var s' := DoClosePost(s, w, n);
    assert NodeOk(s', n);
    WorkerMove(s, s', w, {n}, {});
  }

  lemma WorkerInv(s: State, w: WorkerId)
    requires Inv(s) && Enabled(s, WorkerStep(w))
    ensures Inv(DoWorker(s, w))
  {
    match s.workers[w].pc
    case Top => TopInv(s, w);
    case Scan(i) => ScanInv(s, w, i);
    case InQueue(i) => PopInv(s, w, i);
    case PopRead(i, n) => PopReadInv(s, w, i, n);
    case PopSwap(i, n, seen) => PopSwapInv(s, w, i, n, seen);
    case PopPut(i, n) => PopPutInv(s, w, i, n);
    case Asleep(_) => TopInv(s, w);
    case Loop => LoopInv(s, w);
    case InProc(n) => InProcInv(s, w, n);
    case AfterProc(n) => AfterProcInv(s, w, n);
    case SignalSwap(n, st) => SignalSwapInv(s, w, n, st);
    case SignalPut(n) => SignalPutInv(s, w, n);
    case IdleRead(n) => IdleReadInv(s, w, n);
    case IdleSwap(n, seen) => IdleSwapInv(s, w, n, seen);
    case CloseMark(n) => CloseMarkInv(s, w, n);
    case ClosePost(n) => ClosePostInv(s, w, n);
  }

  /** Every action keeps the invariant. */
  lemma NextInv(s: State, a: Action)
    requires Inv(s) && Enabled(s, a)
    ensures Inv(Next(s, a))
  {
    match a
    case Attach(t, n, q) => AttachInv(s, t, n, q);
    case Trigger(t, n) => TriggerInv(s, t, n);
    case Detach(t, n) => DetachInv(s, t, n);
    case ClientStep(t) => ClientInv(s, t);
    case WorkerStep(w) => WorkerInv(s, w);
    case Spurious(w) => SpuriousInv(s, w);
  }

  lemma {:induction false} RunInv(s: State, acts: seq<Action>)
    requires Inv(s) && Runs(s, acts)
    ensures Inv(After(s, acts))
    decreases |acts|
  {
    if acts != [] {
      NextInv(s, acts[0]);
      RunInv(Next(s, acts[0]), acts[1..]);
    }
  }

  lemma ReachableInv(s: State)
    requires Reachable(s)
    ensures Inv(s)
  {
    var p: nat, b: seq<nat>, acts: seq<Action> :|
      && |b| > 0 && (forall i | 0 <= i < |b| :: b[i] > 0)
      && Runs(Start(p, b), acts) && After(Start(p, b), acts) == s;
    StartInv(p, b);
    RunInv(Start(p, b), acts);
  }
}
