/**
 Progress: when the calls under way are finished without new ones, the cluster comes
 to rest whatever the interleaving.  Three sums fall in turn: stages of the calls,
 rounds the nodes still have to make, and steps of each thread between them.
 */
module ClusterLiveness {
  import opened NodeWord
  import opened Cluster
  import opened ClusterInv
  import opened ClusterTheorems
  import opened ClusterWindows
  import opened ClusterProgress

  // ----- sums

  ghost function Sum(m: map<nat, nat>): nat {
    if m == map[] then 0 else var k :| k in m; m[k] + Sum(m - {k})
  }

  lemma {:induction false} SumTakeOut(m: map<nat, nat>, k: nat)
    requires k in m
    ensures Sum(m) == m[k] + Sum(m - {k})
    decreases |m|
  {
    var j :| j in m && Sum(m) == m[j] + Sum(m - {j});
    if j != k {
      SumTakeOut(m - {j}, k);
      SumTakeOut(m - {k}, j);
      assert m - {j} - {k} == m - {k} - {j};
    }
  }

  /** No entry grows and none is added. */
  ghost predicate Shrinks(m: map<nat, nat>, l: map<nat, nat>) {
    forall k :: k in l ==> k in m && l[k] <= m[k]
  }

  lemma {:induction false} SumShrinks(m: map<nat, nat>, l: map<nat, nat>)
    requires Shrinks(m, l)
    ensures Sum(l) <= Sum(m)
    decreases |m|
  {
    if m == map[] {
      assert l == map[];
    } else {
      var k :| k in m;
      SumTakeOut(m, k);
      SumShrinks(m - {k}, l - {k});
      if k in l { SumTakeOut(l, k); } else { assert l - {k} == l; }
    }
  }

  lemma SumFalls(m: map<nat, nat>, l: map<nat, nat>, k: nat)
    requires Shrinks(m, l) && k in m && (k !in l || l[k] < m[k])
    requires k in l || m[k] > 0
    ensures Sum(l) < Sum(m)
  {
    SumTakeOut(m, k);
    SumShrinks(m - {k}, l - {k});
    if k in l { SumTakeOut(l, k); } else { assert l - {k} == l; }
  }

  // ----- what is left to do

  /** How far a call is from its end; retries and the turns of the wake-up loop do not count. */
  function Stage(c: Client): nat {
    match c
    case DetachClear(_) => 5
    case SchedRead(_, _, _) => 4
    case SchedSwap(_, _, _, _) => 4
    case Enqueue(_, _, _) => 3
    case Wake(_, _, _, _) => 2
    case DetachWait(_) => 1
  }

  /** How far a node is from rest; a signal is one more round. */
  function Rounds(x: Node): nat {
    (if x.word.signal then 10 else 0)
    + match x.place
      case Entering(_) => 9
      case Requeuing(_) => 8
      case Queued(_) => 7
      case Popped(_) => 6
      case Taken(_) => 5
      case Held(_) => 4
      case Leaving(_) => 3
      case Closing(_) => 2
      case Closed => 0
      case Resting => 0
  }

  /** A swap with an outdated word fails, reads again and then succeeds. */
  function Retry(s: State, n: NodeId, seen: Word): nat {
    if n in s.nodes && s.nodes[n].word == seen then 0 else 2
  }

  /** Steps of a worker until it advances a node or sleeps. */
  function WorkerPace(s: State, x: Worker): nat {
    var q := |s.queues|;
    match x.pc
    case Asleep(woken) => if woken then 2 * q + 6 else 0
    case Loop => if x.list == [] then 2 * q + 5 else 2
    case Top => 2 * q + 4
    case Scan(i) => if i <= q then 2 * (q - i) + 3 else 0
    case InQueue(i) => if i <= q then 2 * (q - i) + 2 else 0
    case PopRead(_, _) => 1
    case PopSwap(_, n, seen) => Retry(s, n, seen)
    case PopPut(_, _) => 0
    case InProc(_) => 1
    case AfterProc(_) => 0
    case SignalSwap(_, _) => 0
    case SignalPut(_) => 0
    case IdleRead(_) => 1
    case IdleSwap(n, seen) => Retry(s, n, seen)
    case CloseMark(_) => 1
    case ClosePost(_) => 0
  }

  function ClientPace(s: State, c: Client): nat {
    match c
    case SchedRead(_, _, _) => 1
    case SchedSwap(n, _, _, seen) => Retry(s, n, seen)
    case Wake(_, _, _, i) => if i <= |s.workers| then |s.workers| - i else 0
    case _ => 0
  }

  ghost function Stages(s: State): map<nat, nat> {
    map t | t in s.clients :: Stage(s.clients[t])
  }

  ghost function NodeRounds(s: State): map<nat, nat> {
    map n | n in s.nodes :: Rounds(s.nodes[n])
  }

  ghost function WorkerPaces(s: State): map<nat, nat> {
    map w: nat | w < |s.workers| :: WorkerPace(s, s.workers[w])
  }

  ghost function ClientPaces(s: State): map<nat, nat> {
    map t | t in s.clients :: ClientPace(s, s.clients[t])
  }

  ghost function CallsLeft(s: State): nat { Sum(Stages(s)) }

  ghost function RoundsLeft(s: State): nat { Sum(NodeRounds(s)) }

  ghost function StepsLeft(s: State): nat { Sum(WorkerPaces(s)) + Sum(ClientPaces(s)) }

  /** The first of the three sums that changes has fallen. */
  ghost predicate Falls(s: State, t: State) {
    || CallsLeft(t) < CallsLeft(s)
    || (CallsLeft(t) == CallsLeft(s) && RoundsLeft(t) < RoundsLeft(s))
    || (CallsLeft(t) == CallsLeft(s) && RoundsLeft(t) == RoundsLeft(s) && StepsLeft(t) < StepsLeft(s))
  }

  // ----- a worker's step

  /** The step moves a node on. */
  predicate Advances(s: State, w: WorkerId)
    requires w < |s.workers|
  {
    match s.workers[w].pc
    case InQueue(i) => i < |s.queues| && s.queues[i].list != []
    case PopSwap(_, n, seen) => Retry(s, n, seen) == 0
    case PopPut(_, _) => true
    case AfterProc(_) => true
    case SignalSwap(n, st) => Retry(s, n, st) == 0
    case SignalPut(_) => true
    case IdleSwap(n, seen) => Retry(s, n, seen) == 0
    case ClosePost(_) => true
    case _ => false
  }

  function Advanced(s: State, w: WorkerId): NodeId
    requires w < |s.workers| && Advances(s, w)
  {
    var pc := s.workers[w].pc;
    if pc.InQueue? then s.queues[pc.i].list[0] else pc.n
  }

  lemma AdvanceStep(s: State, w: WorkerId)
    requires Inv(s) && Enabled(s, WorkerStep(w)) && Advances(s, w)
    ensures var t, n := DoWorker(s, w), Advanced(s, w);
            && n in s.nodes && n in t.nodes && t.nodes.Keys == s.nodes.Keys && t.clients == s.clients
            && (forall m :: m in s.nodes && m != n ==> t.nodes[m] == s.nodes[m])
            && Rounds(t.nodes[n]) < Rounds(s.nodes[n])
  {
    AdvanceKeeps(s, w);
    AdvanceFalls(s, w);
  }

  lemma AdvanceKeeps(s: State, w: WorkerId)
    requires Enabled(s, WorkerStep(w)) && Advances(s, w)
    ensures var t, n := DoWorker(s, w), Advanced(s, w);
            && n in s.nodes && n in t.nodes && t.nodes.Keys == s.nodes.Keys && t.clients == s.clients
            && (forall m :: m in s.nodes && m != n ==> t.nodes[m] == s.nodes[m])
  {
  }

  lemma AdvanceFalls(s: State, w: WorkerId)
    requires Inv(s) && Enabled(s, WorkerStep(w)) && Advances(s, w)
    ensures var t, n := DoWorker(s, w), Advanced(s, w);
            n in s.nodes && n in t.nodes && Rounds(t.nodes[n]) < Rounds(s.nodes[n])
  {
    assert WorkerOk(s, w);
    var pc := s.workers[w].pc;
    if pc.InQueue? {
      assert QueueOk(s, pc.i);
      assert InPlace(s, s.queues[pc.i].list[0], Queued(pc.i));
    } else if pc.AfterProc? {
      assert InPlace(s, pc.n, Held(w));
    }
    assert NodeOk(s, Advanced(s, w));
  }

  /** Any other step that changes something leaves words, places and lists alone and is one less to go. */
  lemma PaceStep(s: State, w: WorkerId)
    requires Inv(s) && Enabled(s, WorkerStep(w)) && !Advances(s, w) && DoWorker(s, w) != s
    ensures Keeps(s, DoWorker(s, w), w)
    ensures var t := DoWorker(s, w); WorkerPace(t, t.workers[w]) < WorkerPace(s, s.workers[w])
  {
    PaceKeeps(s, w);
    PaceFalls(s, w);
  }

  ghost predicate Keeps(s: State, t: State, w: WorkerId) {
    && SameNodes(s, t) && t.clients == s.clients && |t.queues| == |s.queues|
    && (forall q | 0 <= q < |s.queues| :: t.queues[q].list == s.queues[q].list)
    && |t.workers| == |s.workers| && (forall v | 0 <= v < |s.workers| && v != w :: t.workers[v] == s.workers[v])
  }

  lemma PaceKeeps(s: State, w: WorkerId)
    requires Enabled(s, WorkerStep(w)) && !Advances(s, w)
    ensures Keeps(s, DoWorker(s, w), w)
  {
    hide DoWorker;
    PaceKeepsNodes(s, w);
    PaceKeepsLists(s, w);
    forall v: WorkerId | v < |s.workers| && v != w ensures v < |DoWorker(s, w).workers| && DoWorker(s, w).workers[v] == s.workers[v] {
      WorkerTouchesItself(s, w, v);
    }
  }

  lemma PaceKeepsNodes(s: State, w: WorkerId)
    requires Enabled(s, WorkerStep(w)) && !Advances(s, w)
    ensures var t := DoWorker(s, w); SameNodes(s, t) && t.clients == s.clients && |t.workers| == |s.workers|
  {
  }

  lemma PaceKeepsLists(s: State, w: WorkerId)
    requires Enabled(s, WorkerStep(w)) && !Advances(s, w)
    ensures var t := DoWorker(s, w);
            |t.queues| == |s.queues| && forall q | 0 <= q < |s.queues| :: t.queues[q].list == s.queues[q].list
  {
  }

  lemma PaceFalls(s: State, w: WorkerId)
    requires Inv(s) && Enabled(s, WorkerStep(w)) && !Advances(s, w) && DoWorker(s, w) != s
    ensures var t := DoWorker(s, w); WorkerPace(t, t.workers[w]) < WorkerPace(s, s.workers[w])
  {
    assert WorkerOk(s, w);
  }

  predicate SameNodes(s: State, t: State) {
    && t.nodes.Keys == s.nodes.Keys
    && forall n :: n in s.nodes ==> t.nodes[n].word == s.nodes[n].word && t.nodes[n].place == s.nodes[n].place
  }

  lemma PaceSame(s: State, t: State)
    requires SameNodes(s, t) && |t.queues| == |s.queues| && |t.workers| == |s.workers|
    ensures NodeRounds(t) == NodeRounds(s)
    ensures forall x :: WorkerPace(t, x) == WorkerPace(s, x)
    ensures forall c :: ClientPace(t, c) == ClientPace(s, c)
  {
  }

  lemma WorkerStepFalls(s: State, w: WorkerId)
    requires Inv(s) && Enabled(s, WorkerStep(w)) && DoWorker(s, w) != s
    ensures var t := DoWorker(s, w);
            CallsLeft(t) == CallsLeft(s) && (if Advances(s, w) then RoundsLeft(t) < RoundsLeft(s) else RoundsLeft(t) == RoundsLeft(s))
    ensures Falls(s, DoWorker(s, w))
  {
    hide DoWorker, Rounds, Stage, WorkerPace, ClientPace, Advances;
    var t := DoWorker(s, w);
    if Advances(s, w) {
      AdvanceStep(s, w);
      assert Stages(t) == Stages(s);
      SumFalls(NodeRounds(s), NodeRounds(t), Advanced(s, w));
    } else {
      PaceStep(s, w);
      PaceSame(s, t);
      assert Stages(t) == Stages(s) && ClientPaces(t) == ClientPaces(s);
      SumFalls(WorkerPaces(s), WorkerPaces(t), w);
    }
  }

  // ----- a step of a call

  /** A read, a failed swap or a turn of the wake-up loop. */
  predicate Turns(s: State, t: ThreadId)
    requires t in s.clients && s.clients[t].n in s.nodes
  {
    match s.clients[t]
    case SchedRead(n, _, _) => !s.nodes[n].word.wait
    case SchedSwap(n, _, _, seen) => s.nodes[n].word != seen
    case Wake(_, _, _, i) => i + 1 < |s.workers| && !s.workers[i].idle
    case _ => false
  }

  lemma TurnStep(s: State, t: ThreadId)
    requires Enabled(s, ClientStep(t)) && Turns(s, t)
    ensures var u := DoClient(s, t);
            && u == SetClient(s, t, u.clients[t]) && Stage(u.clients[t]) == Stage(s.clients[t])
            && ClientPace(u, u.clients[t]) < ClientPace(s, s.clients[t])
  {
  }

  lemma CallStep(s: State, t: ThreadId)
    requires Enabled(s, ClientStep(t)) && !Turns(s, t)
    ensures var u := DoClient(s, t);
            && (forall v :: v in s.clients && v != t ==> v in u.clients && u.clients[v] == s.clients[v])
            && (forall v :: v in u.clients ==> v in s.clients)
            && (t in u.clients ==> Stage(u.clients[t]) < Stage(s.clients[t]))
  {
  }

  lemma ClientStepFalls(s: State, t: ThreadId)
    requires Enabled(s, ClientStep(t))
    ensures Falls(s, DoClient(s, t)) && CallsLeft(DoClient(s, t)) <= CallsLeft(s)
  {
    hide DoClient, WorkerPace, ClientPace, Turns, Rounds, Stage;
    var u := DoClient(s, t);
    if Turns(s, t) {
      TurnStep(s, t);
      PaceSame(s, u);
      assert Stages(u) == Stages(s) && WorkerPaces(u) == WorkerPaces(s);
      SumFalls(ClientPaces(s), ClientPaces(u), t);
    } else {
      CallStep(s, t);
      StagePositive(s.clients[t]);
      SumFalls(Stages(s), Stages(u), t);
    }
  }

  lemma StagePositive(c: Client)
    ensures Stage(c) > 0
  {
  }

  // ----- runs without new calls

  /** A step of a worker or of a call under way: no call begins, and nobody wakes without a signal. */
  predicate UnderWay(a: Action) {
    a.WorkerStep? || a.ClientStep?
  }

  /** Every such step that changes something makes what is left to do fall. */
  lemma StepFalls(s: State, a: Action)
    requires Inv(s) && Enabled(s, a) && UnderWay(a) && Next(s, a) != s
    ensures Falls(s, Next(s, a))
  {
    hide DoWorker, DoClient, Falls;
    match a
    case WorkerStep(w) => WorkerStepFalls(s, w);
    case ClientStep(t) => ClientStepFalls(s, t);
  }

  /**
   No interleaving goes on for ever: in every infinite run, from any point on, there is
   a step that begins a call, wakes without a signal or changes nothing.
   */
  lemma {:induction false} NoEndlessRun(f: nat -> State, a: nat -> Action, i: nat) returns (j: nat)
    requires Inv(f(i)) && forall k: nat :: k >= i ==> Enabled(f(k), a(k)) && f(k + 1) == Next(f(k), a(k))
    ensures j >= i && (!UnderWay(a(j)) || f(j + 1) == f(j))
    decreases CallsLeft(f(i)), RoundsLeft(f(i)), StepsLeft(f(i))
  {
    hide Inv, Enabled, Next, CallsLeft, RoundsLeft, StepsLeft;
    if !UnderWay(a(i)) || f(i + 1) == f(i) {
      j := i;
    } else {
      NextInv(f(i), a(i));
      StepFalls(f(i), a(i));
      j := NoEndlessRun(f, a, i + 1);
    }
  }

  /** No step under way changes anything. */
  ghost predicate Settled(s: State) {
    forall a :: UnderWay(a) && Enabled(s, a) ==> Next(s, a) == s
  }

  ghost predicate AllUnderWay(acts: seq<Action>) {
    forall a <- acts :: UnderWay(a)
  }

  lemma RunsCons(s: State, a: Action, acts: seq<Action>)
    requires Enabled(s, a) && Runs(Next(s, a), acts)
    ensures Runs(s, [a] + acts) && After(s, [a] + acts) == After(Next(s, a), acts)
  {
    assert ([a] + acts)[1..] == acts;
  }

  /** From every state some run under way settles. */
  lemma {:induction false} Settles(s: State) returns (acts: seq<Action>)
    requires Inv(s)
    ensures Runs(s, acts) && AllUnderWay(acts) && Settled(After(s, acts))
    decreases CallsLeft(s), RoundsLeft(s), StepsLeft(s)
  {
    hide Inv, Enabled, Next, CallsLeft, RoundsLeft, StepsLeft;
    if Settled(s) {
      acts := [];
    } else {
      var a :| UnderWay(a) && Enabled(s, a) && Next(s, a) != s;
      NextInv(s, a);
      StepFalls(s, a);
      acts := Settles(Next(s, a));
      RunsCons(s, a, acts);
      acts := [a] + acts;
    }
  }
}
