/**
 `MppQueue`: pushes, pulls and flushes of any number of threads over one list, one
 semaphore and one flush flag, interleaved at every step.
 */
module PullQueue {

  /** Where a thread is inside its call. */
  datatype Place =
    | Idle
    | Added          // push: the element is in the list
    | Unflagged      // push: the flush flag is cleared, the post is due
    | Waiting        // pull: in sem_wait
    | Past           // pull: past it, the list not yet looked at
    | Tested         // flush: the flag was seen clear
    | Flagged        // flush: the flag is set, the post is due
    | Posted         // flush: posted, the list not yet cleared

  /** The last six fields are history and tested by no action. */
  datatype State = State(
    list: seq<nat>,
    sem: nat,
    flag: bool,
    places: seq<Place>,
    entered: seq<nat>,       // elements in the order they were added
    gone: seq<nat>,          // elements in the order they left the list
    flushes: nat,            // posts of flushes
    dropped: nat,            // elements cleared by flushes
    failed: nat,             // pushes that added nothing
    passed: nat,             // pulls that did not wait
    empty: nat)              // pulls that found the list empty

  datatype Action =
    | PushAdd(t: nat, item: nat, alloc: bool)
    | PushUnflag(t: nat)
    | PushPost(t: nat)
    | PullCall(t: nat)
    | PullWait(t: nat)
    | PullTake(t: nat)
    | FlushTest(t: nat)
    | FlushSet(t: nat)
    | FlushPost(t: nat)
    | FlushClear(t: nat)

  function Start(threads: nat): State {
    State([], 0, false, seq(threads, _ => Idle), [], [], 0, 0, 0, 0, 0)
  }

  function From(a: Action): Place {
    match a
    case PushAdd(_, _, _) => Idle
    case PushUnflag(_) => Added
    case PushPost(_) => Unflagged
    case PullCall(_) => Idle
    case PullWait(_) => Waiting
    case PullTake(_) => Past
    case FlushTest(_) => Idle
    case FlushSet(_) => Tested
    case FlushPost(_) => Flagged
    case FlushClear(_) => Posted
  }

  /** A step of thread `t` is possible; only waiting for the semaphore can block. */
  predicate Enabled(s: State, a: Action) {
    a.t < |s.places| && s.places[a.t] == From(a) && (a.PullWait? ==> s.sem > 0)
  }

  function At(s: State, t: nat, p: Place): State
    requires t < |s.places|
  {
    s.(places := s.places[t := p])
  }

  function Next(s: State, a: Action): State
    requires Enabled(s, a)
  {
    match a
    case PushAdd(t, item, alloc) =>
      if alloc then At(s, t, Added).(list := s.list + [item], entered := s.entered + [item])
      else At(s, t, Added).(failed := s.failed + 1)
    case PushUnflag(t) => At(s, t, Unflagged).(flag := false)
    case PushPost(t) => At(s, t, Idle).(sem := s.sem + 1)
    case PullCall(t) => if s.flag then At(s, t, Past).(passed := s.passed + 1) else At(s, t, Waiting)
    case PullWait(t) => At(s, t, Past).(sem := s.sem - 1)
    case PullTake(t) =>
      if s.list == [] then At(s, t, Idle).(empty := s.empty + 1)
      else At(s, t, Idle).(list := s.list[1..], gone := s.gone + [s.list[0]])
    case FlushTest(t) => if s.flag then s else At(s, t, Tested)
    case FlushSet(t) => At(s, t, Flagged).(flag := true)
    case FlushPost(t) => At(s, t, Posted).(sem := s.sem + 1, flushes := s.flushes + 1)
    case FlushClear(t) => At(s, t, Idle).(list := [], gone := s.gone + s.list, dropped := s.dropped + |s.list|)
  }

  /** Posts and passes that no element stands for. */
  function Extra(s: State): nat {
    s.flushes + s.dropped + s.failed + s.passed
  }

  // ----- counting threads

  function Weight(p: Place): nat {
    if p == Added || p == Unflagged || p == Past then 1 else 0
  }

  /** Pushes before their post and pulls past their wait. */
  function Busy(ps: seq<Place>): nat {
    if ps == [] then 0 else Weight(ps[0]) + Busy(ps[1..])
  }

  lemma {:induction false} BusyUpdate(ps: seq<Place>, t: nat, p: Place)
    requires t < |ps|
    ensures Busy(ps[t := p]) == Busy(ps) - Weight(ps[t]) + Weight(p)
  {
    if t > 0 {
      assert ps[t := p][1..] == ps[1..][t - 1 := p];
      BusyUpdate(ps[1..], t - 1, p);
    } else {
      assert ps[t := p][1..] == ps[1..];
    }
  }

  lemma {:induction false} BusyZero(ps: seq<Place>)
    ensures Busy(ps) == 0 <==> forall t :: 0 <= t < |ps| ==> Weight(ps[t]) == 0
  {
    if ps != [] {
      BusyZero(ps[1..]);
      assert forall t {:trigger ps[1..][t]} :: 0 <= t < |ps| - 1 ==> ps[1..][t] == ps[t + 1];
      assert (forall t :: 0 <= t < |ps| ==> Weight(ps[t]) == 0)
             <==> Weight(ps[0]) == 0 && forall t :: 0 <= t < |ps[1..]| ==> Weight(ps[1..][t]) == 0;
    }
  }

  // ----- the invariant

  /**
   Every element is matched by a post, a pull past its wait or a push before its
   post; what is left over comes from flushes, failed pushes and unwaited pulls.
   */
  ghost predicate Inv(s: State) {
    Balanced(s) && s.entered == s.gone + s.list
  }

  ghost predicate Balanced(s: State) {
    s.sem + Busy(s.places) + s.empty == |s.list| + Extra(s) && s.empty <= Extra(s)
  }

  lemma NextBalanced(s: State, a: Action)
    requires Balanced(s) && Enabled(s, a)
    ensures Balanced(Next(s, a))
  {
    hide Busy;
    BusyUpdate(s.places, a.t, Next(s, a).places[a.t]);
    if a.FlushTest? && s.flag { assert s.places[a.t := s.places[a.t]] == s.places; }
  }

  lemma NextInOrder(s: State, a: Action)
    requires s.entered == s.gone + s.list && Enabled(s, a)
    ensures var t := Next(s, a); t.entered == t.gone + t.list
  {
    if a.PullTake? && s.list != [] { assert s.gone + s.list == s.gone + [s.list[0]] + s.list[1..]; }
    if a.PushAdd? { assert s.entered + [a.item] == s.gone + (s.list + [a.item]); }
  }

  lemma NextInv(s: State, a: Action)
    requires Inv(s) && Enabled(s, a)
    ensures Inv(Next(s, a))
  {
    hide Busy, Next;
    NextBalanced(s, a);
    NextInOrder(s, a);
  }

  ghost predicate Run(s: State, acts: seq<Action>)
    decreases |acts|
  {
    acts == [] || (Enabled(s, acts[0]) && Run(Next(s, acts[0]), acts[1..]))
  }

  ghost function After(s: State, acts: seq<Action>): State
    requires Run(s, acts)
    decreases |acts|
  {
    if acts == [] then s else After(Next(s, acts[0]), acts[1..])
  }

  lemma {:induction false} RunInv(s: State, acts: seq<Action>)
    requires Inv(s) && Run(s, acts)
    ensures Inv(After(s, acts))
    decreases |acts|
  {
    hide Inv, Next, Enabled;
    if acts != [] {
      NextInv(s, acts[0]);
      RunInv(Next(s, acts[0]), acts[1..]);
    }
  }

  lemma StartInv(threads: nat)
    ensures Inv(Start(threads))
  {
    BusyZero(Start(threads).places);
  }

  // ----- theorems

  /** At every step of every run the semaphore and the threads on their way cover the list. */
  lemma ListCovered(threads: nat, acts: seq<Action>)
    requires Run(Start(threads), acts)
    ensures var s := After(Start(threads), acts); s.sem + Busy(s.places) >= |s.list|
  {
    StartInv(threads);
    RunInv(Start(threads), acts);
  }

  /** No pull stays blocked while an element is queued, no push is pending and no other pull is about to look. */
  lemma PullGoesOn(threads: nat, acts: seq<Action>, t: nat)
    requires Run(Start(threads), acts)
    requires var s := After(Start(threads), acts);
             && t < |s.places| && s.places[t] == Waiting && s.list != []
             && forall u :: 0 <= u < |s.places| ==> Weight(s.places[u]) == 0
    ensures Enabled(After(Start(threads), acts), PullWait(t))
  {
    hide Run, After;
    ListCovered(threads, acts);
    BusyZero(After(Start(threads), acts).places);
  }

  /** Nothing has been dropped, and no flush is about to drop, before one has posted. */
  ghost predicate PostsFirst(s: State) {
    s.flushes == 0 ==> s.dropped == 0 && forall u :: 0 <= u < |s.places| ==> s.places[u] != Posted
  }

  lemma {:induction false} PostsFirstRun(s: State, acts: seq<Action>)
    requires Run(s, acts) && PostsFirst(s)
    ensures PostsFirst(After(s, acts))
    decreases |acts|
  {
    if acts != [] { PostsFirstRun(Next(s, acts[0]), acts[1..]); }
  }

  /** A flush wakes a waiting pull before it drops what that pull waits for. */
  lemma FlushPostsFirst(threads: nat, acts: seq<Action>)
    requires Run(Start(threads), acts)
    ensures var s := After(Start(threads), acts); s.dropped > 0 ==> s.flushes > 0
  {
    PostsFirstRun(Start(threads), acts);
  }

  /** Elements leave in the order they were pushed, pulled or flushed. */
  lemma InOrder(threads: nat, acts: seq<Action>)
    requires Run(Start(threads), acts)
    ensures var s := After(Start(threads), acts); s.entered == s.gone + s.list
  {
    StartInv(threads);
    RunInv(Start(threads), acts);
  }

  predicate Plain(acts: seq<Action>) {
    forall a <- acts :: !a.FlushTest? && (a.PushAdd? ==> a.alloc)
  }

  /** Without flushes and failed pushes no thread is in a flush and nothing is left over. */
  ghost predicate Clean(s: State) {
    !s.flag && Extra(s) == 0
    && forall t :: 0 <= t < |s.places| ==> !s.places[t].Tested? && !s.places[t].Flagged? && !s.places[t].Posted?
  }

  lemma {:induction false} CleanRun(s: State, acts: seq<Action>)
    requires Inv(s) && Clean(s) && Run(s, acts) && Plain(acts)
    ensures Inv(After(s, acts)) && Clean(After(s, acts))
    decreases |acts|
  {
    hide Inv;
    if acts != [] {
      NextInv(s, acts[0]);
      assert acts[0] in acts && forall a <- acts[1..] :: a in acts;
      assert Clean(Next(s, acts[0]));
      CleanRun(Next(s, acts[0]), acts[1..]);
    }
  }

  /** Without flushes and failed pushes every pull returns an element. */
  lemma NoEmptyPull(threads: nat, acts: seq<Action>, t: nat)
    requires Run(Start(threads), acts) && Plain(acts)
    ensures var s := After(Start(threads), acts);
            s.empty == 0 && (Enabled(s, PullTake(t)) ==> s.list != [])
  {
    StartInv(threads);
    CleanRun(Start(threads), acts);
    var s := After(Start(threads), acts);
    if t < |s.places| { BusyUpdate(s.places, t, Idle); }
  }

  // ----- when a pull comes back empty

  predicate PullsOnly(acts: seq<Action>) {
    forall a <- acts :: a.PullCall? || a.PullWait? || a.PullTake?
  }

  predicate AllIdle(s: State) {
    forall t :: 0 <= t < |s.places| ==> s.places[t] == Idle
  }

  /** While nothing but pulls happens an empty list stays empty, and with the flag clear nothing is added to what is left over. */
  lemma {:induction false} PullsOnlyRun(s: State, acts: seq<Action>)
    requires Run(s, acts) && PullsOnly(acts)
    ensures var t := After(s, acts);
            && t.empty >= s.empty && (t.empty > s.empty ==> t.list == []) && (s.list == [] ==> t.list == [])
            && t.flag == s.flag && (!s.flag ==> Extra(t) == Extra(s))
    decreases |acts|
  {
    if acts != [] {
      assert acts[0] in acts && forall a <- acts[1..] :: a in acts;
      PullsOnlyRun(Next(s, acts[0]), acts[1..]);
    }
  }

  /** `k` whole pulls of thread 0. */
  function Pulls(k: nat, flag: bool): seq<Action> {
    if k == 0 then [] else (if flag then [PullCall(0), PullTake(0)] else PULL) + Pulls(k - 1, flag)
  }

  lemma {:induction false} PullsArePulls(k: nat, flag: bool)
    ensures PullsOnly(Pulls(k, flag))
  {
    if k > 0 { PullsArePulls(k - 1, flag); }
  }

  /** Pulls in a row come back empty exactly as often as they outnumber the elements. */
  lemma {:induction false} PullsInARow(s: State, k: nat)
    requires |s.places| > 0 && s.places[0] == Idle && (s.flag || k <= s.sem)
    ensures Run(s, Pulls(k, s.flag))
    ensures After(s, Pulls(k, s.flag)).empty == s.empty + (if k > |s.list| then k - |s.list| else 0)
    decreases k
  {
    hide Run, After;
    if k > 0 {
      PullRun(s);
      var one := if s.flag then [PullCall(0), PullTake(0)] else PULL;
      var t := After(s, one);
      PullsInARow(t, k - 1);
      RunConcat(s, one, Pulls(k - 1, s.flag));
    } else {
      NoSteps(s);
    }
  }

  lemma NoSteps(s: State)
    ensures Run(s, []) && After(s, []) == s
  {
  }

  /**
   In any reachable state with all threads outside their calls, pulls alone can make
   one come back empty if and only if the flush flag is set or the semaphore counts
   more than the list holds; and what it counts more is known.
   */
  lemma EmptyPullIff(threads: nat, acts: seq<Action>)
    requires threads > 0 && Run(Start(threads), acts) && AllIdle(After(Start(threads), acts))
    ensures var s := After(Start(threads), acts);
            && ((exists more :: Run(s, more) && PullsOnly(more) && After(s, more).empty > s.empty)
                <==> s.flag || s.sem > |s.list|)
            && s.sem - |s.list| == s.flushes + s.dropped + s.failed + s.passed - s.empty
  {
    StartInv(threads);
    RunInv(Start(threads), acts);
    Threads(Start(threads), acts);
    var s := After(Start(threads), acts);
    BusyZero(s.places);
    if s.flag || s.sem > |s.list| {
      var k := |s.list| + 1;
      PullsInARow(s, k);
      PullsArePulls(k, s.flag);
      assert Run(s, Pulls(k, s.flag)) && PullsOnly(Pulls(k, s.flag)) && After(s, Pulls(k, s.flag)).empty > s.empty;
    }
    forall more | Run(s, more) && PullsOnly(more) && After(s, more).empty > s.empty ensures s.flag || s.sem > |s.list| {
      PullsOnlyRun(s, more);
      RunInv(s, more);
    }
  }

  lemma {:induction false} Threads(s: State, acts: seq<Action>)
    requires Run(s, acts)
    ensures |After(s, acts).places| == |s.places|
    decreases |acts|
  {
    if acts != [] { Threads(Next(s, acts[0]), acts[1..]); }
  }

  // ----- whole calls of a single thread

  lemma {:induction false} RunConcat(s: State, a: seq<Action>, b: seq<Action>)
    requires Run(s, a) && Run(After(s, a), b)
    ensures Run(s, a + b) && After(s, a + b) == After(After(s, a), b)
    decreases |a|
  {
    hide Next, Enabled;
    if a == [] {
      assert a + b == b;
    } else {
      assert (a + b)[1..] == a[1..] + b;
      RunConcat(Next(s, a[0]), a[1..], b);
    }
  }

  lemma OneStep(s: State, a: Action)
    requires Enabled(s, a)
    ensures Run(s, [a]) && After(s, [a]) == Next(s, a)
  {
    hide Next, Enabled;
    assert [a][0] == a && [a][1..] == [];
    assert Run(Next(s, a), []) && After(Next(s, a), []) == Next(s, a);
  }

  lemma MoreStep(s: State, acts: seq<Action>, a: Action)
    requires Run(s, acts) && Enabled(After(s, acts), a)
    ensures Run(s, acts + [a]) && After(s, acts + [a]) == Next(After(s, acts), a)
  {
    hide Next, Enabled, Run, After;
    OneStep(After(s, acts), a);
    RunConcat(s, acts, [a]);
  }

  const PULL: seq<Action> := [PullCall(0), PullWait(0), PullTake(0)]
  const FLUSH: seq<Action> := [FlushTest(0), FlushSet(0), FlushPost(0), FlushClear(0)]

  function Push(item: nat): seq<Action> {
    [PushAdd(0, item, true), PushUnflag(0), PushPost(0)]
  }

  lemma PushRun(s: State, item: nat)
    requires s.places == [Idle]
    ensures Run(s, Push(item))
    ensures After(s, Push(item)) == s.(list := s.list + [item], entered := s.entered + [item], sem := s.sem + 1, flag := false)
  {
    hide Run, After;
    OneStep(s, PushAdd(0, item, true));
    MoreStep(s, [PushAdd(0, item, true)], PushUnflag(0));
    MoreStep(s, [PushAdd(0, item, true)] + [PushUnflag(0)], PushPost(0));
    assert Push(item) == [PushAdd(0, item, true)] + [PushUnflag(0)] + [PushPost(0)];
  }

  /** A flush drops the elements and adds a post, but takes none of their posts back. */
  lemma FlushRun(s: State)
    requires s.places == [Idle] && !s.flag
    ensures Run(s, FLUSH)
    ensures After(s, FLUSH) == s.(list := [], gone := s.gone + s.list, sem := s.sem + 1, flag := true,
                                  flushes := s.flushes + 1, dropped := s.dropped + |s.list|)
  {
    hide Run, After;
    OneStep(s, FlushTest(0));
    MoreStep(s, [FlushTest(0)], FlushSet(0));
    MoreStep(s, [FlushTest(0)] + [FlushSet(0)], FlushPost(0));
    MoreStep(s, [FlushTest(0)] + [FlushSet(0)] + [FlushPost(0)], FlushClear(0));
    assert FLUSH == [FlushTest(0)] + [FlushSet(0)] + [FlushPost(0)] + [FlushClear(0)];
  }

  lemma PullRun(s: State)
    requires |s.places| > 0 && s.places[0] == Idle && (s.flag || s.sem > 0)
    ensures var pull := if s.flag then [PullCall(0), PullTake(0)] else PULL;
            var t := if s.flag then s.(passed := s.passed + 1) else s.(sem := s.sem - 1);
            && Run(s, pull)
            && After(s, pull) == if s.list == [] then t.(empty := s.empty + 1)
                                 else t.(list := s.list[1..], gone := s.gone + [s.list[0]])
  {
    hide Run, After;
    OneStep(s, PullCall(0));
    if s.flag {
      MoreStep(s, [PullCall(0)], PullTake(0));
      assert [PullCall(0), PullTake(0)] == [PullCall(0)] + [PullTake(0)];
      assert s.places[0 := Past][0 := Idle] == s.places;
    } else {
      MoreStep(s, [PullCall(0)], PullWait(0));
      MoreStep(s, [PullCall(0)] + [PullWait(0)], PullTake(0));
      assert PULL == [PullCall(0)] + [PullWait(0)] + [PullTake(0)];
      assert s.places[0 := Waiting][0 := Past][0 := Idle] == s.places;
    }
  }

  /** Push, flush, push, pull: one more pull does not wait for an element but comes back empty. */
  lemma EmptyAfterFlush(x: nat, y: nat)
    ensures var acts := Push(x) + FLUSH + Push(y) + PULL + PULL;
            && Run(Start(1), acts)
            && var s := After(Start(1), acts); !s.flag && s.passed == 0 && s.empty == 1 && s.gone == [x, y]
  {
    hide Run, After, Next;
    var s0 := Start(1);
    assert s0.places == [Idle];
    PushRun(s0, x);
    var s1 := After(s0, Push(x));
    FlushRun(s1);
    RunConcat(s0, Push(x), FLUSH);
    var s2 := After(s1, FLUSH);
    PushRun(s2, y);
    RunConcat(s0, Push(x) + FLUSH, Push(y));
    var s3 := After(s2, Push(y));
    PullRun(s3);
    RunConcat(s0, Push(x) + FLUSH + Push(y), PULL);
    var s4 := After(s3, PULL);
    PullRun(s4);
    RunConcat(s0, Push(x) + FLUSH + Push(y) + PULL, PULL);
  }

  lemma BothTested() returns (acts: seq<Action>)
    ensures Run(Start(2), acts) && After(Start(2), acts) == Start(2).(flag := true, places := [Flagged, Flagged])
  {
    hide Run, After;
    var s := Start(2);
    OneStep(s, FlushTest(0));
    acts := [FlushTest(0)];
    MoreStep(s, acts, FlushTest(1));
    acts := acts + [FlushTest(1)];
    MoreStep(s, acts, FlushSet(0));
    acts := acts + [FlushSet(0)];
    MoreStep(s, acts, FlushSet(1));
    acts := acts + [FlushSet(1)];
  }

  /** Two flushes can both see the flag clear; then both post, with no element ever pushed. */
  lemma TwoFlushes() returns (acts: seq<Action>)
    ensures Run(Start(2), acts)
    ensures var s := After(Start(2), acts); AllIdle(s) && s.flushes == 2 && s.sem == 2 && s.entered == []
  {
    hide Run, After;
    var s := Start(2);
    acts := BothTested();
    MoreStep(s, acts, FlushPost(0));
    acts := acts + [FlushPost(0)];
    MoreStep(s, acts, FlushPost(1));
    acts := acts + [FlushPost(1)];
    MoreStep(s, acts, FlushClear(0));
    acts := acts + [FlushClear(0)];
    MoreStep(s, acts, FlushClear(1));
    acts := acts + [FlushClear(1)];
  }
}
