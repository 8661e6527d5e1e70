/**
 The slot pool: per-slot use flags and counters, release on last use, in-order
 queues, and the buffer reference each slot holds.
 */
module Slots {
  import opened Common

  const QUEUES: nat := 4

  datatype Slot = Slot(
    onUsed: bool,
    notReady: bool,
    codecUse: bool,
    halOutput: bool,
    halUse: nat,             // 8 bits
    queueUse: nat,           // 5 bits
    eosFlag: bool,
    hasBuffer: bool,
    hasFrame: bool,
    eos: nat,
    frame: Option<nat>,
    buffer: Option<nat>)

  const FRESH := Slot(false, false, false, false, 0, 0, false, false, false, 0, None, None)

  datatype Usage = CodecReady | CodecUse | HalInput | HalOutput | QueueUse

  /** `slot_ops_with_log` for the set operations of `mpp_buf_slot_set_flag`. */
  function AfterSet(s: Slot, u: Usage): Slot {
    match u
    case CodecReady => s.(notReady := false)
    case CodecUse => s.(codecUse := true)
    case HalInput => s.(halUse := (s.halUse + 1) % 256)
    case HalOutput => s.(halOutput := true, notReady := true)
    case QueueUse => s.(queueUse := (s.queueUse + 1) % 32)
  }

  /** The clear operations; a counter at zero is an error and stays. */
  function AfterClr(s: Slot, u: Usage): Slot {
    match u
    case CodecReady => s.(notReady := true)
    case CodecUse => s.(codecUse := false)
    case HalInput => if s.halUse > 0 then s.(halUse := s.halUse - 1) else s
    case HalOutput => s.(halOutput := false, notReady := false)
    case QueueUse => if s.queueUse > 0 then s.(queueUse := s.queueUse - 1) else s
  }

  predicate ClrFails(s: Slot, u: Usage) {
    (u == HalInput && s.halUse == 0) || (u == QueueUse && s.queueUse == 0)
  }

  /** Ready, and used by nobody. */
  predicate Idle(s: Slot) {
    !s.notReady && !s.codecUse && !s.halOutput && s.halUse == 0 && s.queueUse == 0
  }

  function Released(s: Slot): Slot {
    s.(onUsed := false, hasFrame := false, frame := None, hasBuffer := false, buffer := None)
  }

  /** `check_entry_unused`. */
  function Checked(s: Slot): Slot {
    if s.onUsed && Idle(s) then Released(s) else s
  }

  /** The pool, with what clients did: their own queue-use flags and the order of the queues. */
  datatype View = View(
    slots: seq<Slot>,
    queues: seq<seq<nat>>,
    used: int,
    flagged: seq<nat>,           // queue-use flags set and not yet cleared
    held: multiset<nat>,         // buffer references taken and not yet put
    entered: seq<seq<nat>>,
    left: seq<seq<nat>>,
    extra: seq<nat>)             // enqueues that found the slot linked

  ghost predicate Linked(q: seq<seq<nat>>, i: nat) {
    exists t {:trigger q[t]} :: 0 <= t < |q| && i in q[t]
  }

  function Count(s: seq<Slot>): nat {
    if s == [] then 0 else Digit(s[0].onUsed) + Count(s[1..])
  }

  function Refs(o: Option<nat>): multiset<nat> {
    if o.Some? then multiset{o.value} else multiset{}
  }

  function Held(s: seq<Slot>): multiset<nat> {
    if s == [] then multiset{} else Refs(s[0].buffer) + Held(s[1..])
  }

  lemma {:induction false} CountUpdate(s: seq<Slot>, i: nat, v: Slot)
    requires i < |s|
    ensures Count(s[i := v]) == Count(s) - Digit(s[i].onUsed) + Digit(v.onUsed)
  {
    if i > 0 {
      assert s[i := v][1..] == s[1..][i - 1 := v];
      CountUpdate(s[1..], i - 1, v);
    } else {
      assert s[i := v][1..] == s[1..];
    }
  }

  lemma {:induction false} HeldUpdate(s: seq<Slot>, i: nat, v: Slot)
    requires i < |s|
    ensures Refs(s[i].buffer) <= Held(s)
    ensures Held(s[i := v]) == Held(s) - Refs(s[i].buffer) + Refs(v.buffer)
  {
    hide Refs;
    if i > 0 {
      assert s[i := v][1..] == s[1..][i - 1 := v];
      HeldUpdate(s[1..], i - 1, v);
    } else {
      assert s[i := v][1..] == s[1..];
    }
  }

  lemma {:induction false} CountBound(s: seq<Slot>)
    ensures Count(s) <= |s|
    ensures Count(s) == |s| <==> forall i :: 0 <= i < |s| ==> s[i].onUsed
  {
    if s != [] {
      CountBound(s[1..]);
      assert forall i {:trigger s[1..][i]} :: 0 <= i < |s| - 1 ==> s[1..][i] == s[i + 1];
      assert (forall i :: 0 <= i < |s| ==> s[i].onUsed) <==> s[0].onUsed && forall i :: 0 <= i < |s[1..]| ==> s[1..][i].onUsed;
    }
  }

  // ----- the invariant

  /** A linked slot is used and counted once; an unused one is clean. */
  ghost predicate SlotOk(s: Slot, flagged: nat, linked: bool, extra: nat) {
    && s.halUse < 256 && s.queueUse < 32
    && s.queueUse == flagged + Digit(linked) + extra
    && (s.hasFrame <==> s.frame.Some?) && (s.hasBuffer <==> s.buffer.Some?)
    && (linked ==> s.onUsed)
    && (!s.onUsed ==> Idle(s) && s.frame.None? && s.buffer.None?)
  }

  ghost predicate QueuesOk(q: seq<seq<nat>>, n: nat) {
    && |q| == QUEUES
    && (forall t {:trigger q[t]} :: 0 <= t < |q| ==> Distinct(q[t]) && forall i <- q[t] :: i < n)
    && (forall t, u {:trigger q[t], q[u]} :: 0 <= t < u < |q| ==> forall i <- q[t] :: i !in q[u])
  }

  /** What entered a queue, and was not withdrawn to enter one again, left it in order or is in it. */
  ghost predicate InOrder(v: View) {
    |v.entered| == |v.queues| == |v.left|
    && forall t {:trigger v.queues[t]} :: 0 <= t < |v.queues| ==> v.entered[t] == v.left[t] + v.queues[t]
  }

  ghost predicate Ok(v: View) {
    && |v.flagged| == |v.slots| == |v.extra|
    && QueuesOk(v.queues, |v.slots|)
    && (forall i {:trigger v.slots[i]} :: 0 <= i < |v.slots| ==> SlotOk(v.slots[i], v.flagged[i], Linked(v.queues, i), v.extra[i]))
    && v.used == Count(v.slots)
    && v.held == Held(v.slots)
    && InOrder(v)
  }

  // ----- what the calls do

  /** Slot `i` becomes `s`, and the counters follow. */
  function Put(v: View, i: nat, s: Slot): View
    requires i < |v.slots|
  {
    v.(slots := v.slots[i := s],
       used := v.used - Digit(v.slots[i].onUsed) + Digit(s.onUsed),
       held := v.held - Refs(v.slots[i].buffer) + Refs(s.buffer))
  }

  function Flag(v: View, i: nat, d: int): View
    requires i < |v.flagged| && v.flagged[i] + d >= 0
  {
    v.(flagged := v.flagged[i := v.flagged[i] + d])
  }

  /** Unlinked from whichever queue has it. */
  function Unlinked(q: seq<seq<nat>>, i: nat): (r: seq<seq<nat>>)
    ensures |r| == |q|
  {
    seq(|q|, t requires 0 <= t < |q| => Without(q[t], i))
  }

  /** The pending entry of a slot is taken out of whichever record of entries has it. */
  function Withdrawn(entered: seq<seq<nat>>, left: seq<seq<nat>>, i: nat): (r: seq<seq<nat>>)
    requires |left| == |entered|
    ensures |r| == |entered|
  {
    seq(|entered|, t requires 0 <= t < |entered| => Pending(entered[t], |left[t]|, i))
  }

  function Pending(entered: seq<nat>, gone: nat, i: nat): seq<nat> {
    if gone > |entered| then entered else entered[..gone] + Without(entered[gone..], i)
  }

  /** Withdrawing an entry and unlinking the slot keep the order. */
  lemma WithdrawnOk(v: View, i: nat, t: nat)
    requires InOrder(v) && t < |v.queues|
    ensures Withdrawn(v.entered, v.left, i)[t] == v.left[t] + Unlinked(v.queues, i)[t]
  {
    assert v.entered[t] == v.left[t] + v.queues[t];
    assert v.entered[t][..|v.left[t]|] == v.left[t] && v.entered[t][|v.left[t]|..] == v.queues[t];
  }

  ghost function Enqueued(v: View, i: nat, t: nat): View
    requires i < |v.slots| == |v.extra| && t < |v.queues| == |v.entered| == |v.left|
  {
    var q := Unlinked(v.queues, i);
    Put(v, i, v.slots[i].(queueUse := v.slots[i].queueUse + 1))
      .(queues := q[t := q[t] + [i]],
        entered := Withdrawn(v.entered, v.left, i)[t := Withdrawn(v.entered, v.left, i)[t] + [i]],
        extra := v.extra[i := v.extra[i] + Digit(Linked(v.queues, i))])
  }

  ghost function Dequeued(v: View, t: nat): View
    requires t < |v.queues| == |v.left| && v.queues[t] != [] && v.queues[t][0] < |v.slots|
    requires v.slots[v.queues[t][0]].queueUse > 0
  {
    var i := v.queues[t][0];
    Put(v, i, v.slots[i].(queueUse := v.slots[i].queueUse - 1))
      .(queues := v.queues[t := v.queues[t][1..]],
        left := v.left[t := v.left[t] + [i]])
  }

  // ----- every call keeps the invariant

  lemma PutOk(v: View, i: nat, s: Slot)
    requires Ok(v) && i < |v.slots| && SlotOk(s, v.flagged[i], Linked(v.queues, i), v.extra[i])
    ensures Ok(Put(v, i, s))
  {
    hide SlotOk, Linked, Count, Held;
    CountUpdate(v.slots, i, s);
    HeldUpdate(v.slots, i, s);
  }

  lemma FlagOk(v: View, i: nat, s: Slot, d: int)
    requires Ok(v) && i < |v.slots| && v.flagged[i] + d >= 0
    requires SlotOk(s, v.flagged[i] + d, Linked(v.queues, i), v.extra[i])
    ensures Ok(Flag(Put(v, i, s), i, d))
  {
    hide SlotOk, Linked, Count, Held;
    CountUpdate(v.slots, i, s);
    HeldUpdate(v.slots, i, s);
  }

  ghost function FlagSet(v: View, i: nat, u: Usage): View
    requires i < |v.slots| == |v.flagged|
  {
    Flag(Put(v, i, AfterSet(v.slots[i], u)), i, Digit(u == QueueUse))
  }

  /** A clear, and the release when it was the last use. */
  ghost function FlagCleared(v: View, i: nat, u: Usage): View
    requires i < |v.slots| == |v.flagged| && (u == QueueUse ==> v.flagged[i] > 0)
  {
    Flag(Put(v, i, Checked(AfterClr(v.slots[i], u))), i, 0 - Digit(u == QueueUse))
  }

  lemma SetFlagOk(v: View, i: nat, u: Usage)
    requires Ok(v) && i < |v.slots| && v.slots[i].onUsed
    requires u == HalInput ==> v.slots[i].halUse < 255
    requires u == QueueUse ==> v.slots[i].queueUse < 31
    ensures Ok(FlagSet(v, i, u)) && FlagSet(v, i, u).used == v.used && FlagSet(v, i, u).held == v.held
  {
    hide Linked, Count, Held, Refs, QueuesOk, InOrder;
    assert SlotOk(v.slots[i], v.flagged[i], Linked(v.queues, i), v.extra[i]);
    FlagOk(v, i, AfterSet(v.slots[i], u), Digit(u == QueueUse));
    HeldUpdate(v.slots, i, v.slots[i]);
  }

  /** A released slot is in no queue and flagged by nobody. */
  lemma ClrFlagOk(v: View, i: nat, u: Usage)
    requires Ok(v) && i < |v.slots| && v.slots[i].onUsed && (u == QueueUse ==> v.flagged[i] > 0)
    ensures var t := FlagCleared(v, i, u);
            && Ok(t)
            && (!t.slots[i].onUsed <==> Idle(AfterClr(v.slots[i], u)))
            && (!t.slots[i].onUsed ==> !Linked(t.queues, i) && t.flagged[i] == 0 && t.held == v.held - Refs(v.slots[i].buffer))
    ensures var s := AfterClr(v.slots[i], u);
            && Refs(s.buffer) <= v.held && (s.hasFrame <==> s.frame.Some?) && (s.hasBuffer <==> s.buffer.Some?)
            && s.buffer == v.slots[i].buffer && s.onUsed
  {
    hide Linked, Count, Held, Refs, QueuesOk, InOrder, AfterClr, Checked, Idle;
    var s := v.slots[i];
    assert SlotOk(s, v.flagged[i], Linked(v.queues, i), v.extra[i]);
    ClearedOk(s, u, v.flagged[i], Linked(v.queues, i), v.extra[i]);
    HeldUpdate(v.slots, i, s);
    ClrSlotOk(v, i, u, Checked(AfterClr(s, u)));
    if Idle(AfterClr(s, u)) { NoRefs(v.held - Refs(s.buffer)); }
  }

  lemma NoRefs(m: multiset<nat>)
    ensures Refs(None) == multiset{} && m + multiset{} == m
  {
  }

  lemma ClrSlotOk(v: View, i: nat, u: Usage, s: Slot)
    requires Ok(v) && i < |v.slots| && (u == QueueUse ==> v.flagged[i] > 0)
    requires SlotOk(s, v.flagged[i] - Digit(u == QueueUse), Linked(v.queues, i), v.extra[i])
    ensures Ok(Flag(Put(v, i, s), i, 0 - Digit(u == QueueUse)))
  {
    hide SlotOk, Linked, QueuesOk, InOrder;
    FlagOk(v, i, s, 0 - Digit(u == QueueUse));
  }

  lemma ClearedOk(s: Slot, u: Usage, flagged: nat, linked: bool, extra: nat)
    requires SlotOk(s, flagged, linked, extra) && s.onUsed && (u == QueueUse ==> flagged > 0)
    ensures SlotOk(Checked(AfterClr(s, u)), flagged - Digit(u == QueueUse), linked, extra)
    ensures var t := AfterClr(s, u);
            && t.buffer == s.buffer && (t.hasFrame <==> t.frame.Some?) && (t.hasBuffer <==> t.buffer.Some?) && t.onUsed
            && (!Checked(t).onUsed <==> Idle(t)) && (Idle(t) ==> Checked(t).buffer == None)
    ensures Idle(AfterClr(s, u)) ==> !linked && flagged == Digit(u == QueueUse)
    ensures Checked(AfterClr(s, u)).queueUse == s.queueUse - Digit(u == QueueUse)
  {
    hide AfterClr;
    ClrFacts(s, u, flagged);
  }

  lemma ClrFacts(s: Slot, u: Usage, flagged: nat)
    requires s.halUse < 256 && s.queueUse >= flagged && (u == QueueUse ==> flagged > 0)
    ensures var t := AfterClr(s, u);
            && t.queueUse == s.queueUse - Digit(u == QueueUse) && t.halUse < 256 && t.onUsed == s.onUsed
            && t.frame == s.frame && t.buffer == s.buffer && t.hasFrame == s.hasFrame && t.hasBuffer == s.hasBuffer
  {
    match u
    case CodecReady => assert AfterClr(s, u) == s.(notReady := true);
    case CodecUse => assert AfterClr(s, u) == s.(codecUse := false);
    case HalInput =>
    case HalOutput => assert AfterClr(s, u) == s.(halOutput := false, notReady := false);
    case QueueUse => assert AfterClr(s, u) == s.(queueUse := s.queueUse - 1);
  }

  lemma UnlinkedOk(q: seq<seq<nat>>, i: nat, n: nat)
    requires QueuesOk(q, n)
    ensures QueuesOk(Unlinked(q, i), n) && !Linked(Unlinked(q, i), i)
    ensures forall j :: j != i ==> (Linked(Unlinked(q, i), j) <==> Linked(q, j))
    ensures !Linked(q, i) ==> Unlinked(q, i) == q
  {
    var r := Unlinked(q, i);
    forall t {:trigger r[t]} {:trigger q[t]} | 0 <= t < |q|
      ensures Distinct(r[t]) && (forall x :: x in r[t] <==> x in q[t] && x != i) && (i !in q[t] ==> r[t] == q[t])
    {
      WithoutFacts(q[t], i);
      if i !in q[t] { WithoutSame(q[t], i); }
    }
    assert !Linked(q, i) ==> forall t {:trigger q[t]} :: 0 <= t < |q| ==> i !in q[t];
    forall j | j != i ensures Linked(r, j) <==> Linked(q, j) {
      if Linked(r, j) {
        var t :| 0 <= t < |r| && j in r[t];
        assert j in q[t];
      }
      if Linked(q, j) {
        var t :| 0 <= t < |q| && j in q[t];
        assert j in r[t];
      }
    }
  }

  lemma {:induction false} WithoutSame(l: seq<nat>, b: nat)
    requires b !in l
    ensures Without(l, b) == l
  {
    if l != [] { WithoutSame(l[1..], b); }
  }

  /** A slot in no queue joins one at its end. */
  lemma JoinedOk(q: seq<seq<nat>>, t: nat, i: nat, n: nat)
    requires QueuesOk(q, n) && t < |q| && i < n && !Linked(q, i)
    ensures var r := q[t := q[t] + [i]]; QueuesOk(r, n) && Linked(r, i)
    ensures forall j :: j != i ==> (Linked(q[t := q[t] + [i]], j) <==> Linked(q, j))
  {
    var r := q[t := q[t] + [i]];
    DistinctJoined(q[t], i);
    assert i in r[t];
    forall j | j != i ensures Linked(r, j) <==> Linked(q, j) {
      if Linked(r, j) {
        var u :| 0 <= u < |r| && j in r[u];
        assert j in q[u];
      }
      if Linked(q, j) {
        var u :| 0 <= u < |q| && j in q[u];
        assert j in r[u];
      }
    }
  }

  /** The head of a queue leaves, and is in no other. */
  lemma HeadOffOk(q: seq<seq<nat>>, t: nat, n: nat)
    requires QueuesOk(q, n) && t < |q| && q[t] != []
    ensures var r := q[t := q[t][1..]]; QueuesOk(r, n) && Linked(q, q[t][0]) && !Linked(r, q[t][0])
    ensures forall j :: j != q[t][0] ==> (Linked(q[t := q[t][1..]], j) <==> Linked(q, j))
  {
    var i := q[t][0];
    var r := q[t := q[t][1..]];
    assert q[t] == [i] + q[t][1..];
    assert i in q[t] && i !in r[t] && Distinct(r[t]);
    assert forall x :: x in r[t] ==> x in q[t];
    assert forall u {:trigger r[u]} :: 0 <= u < |r| && u != t ==> r[u] == q[u] && i !in r[u];
    forall j | j != i ensures Linked(r, j) <==> Linked(q, j) {
      if Linked(r, j) {
        var u :| 0 <= u < |r| && j in r[u];
        assert j in q[u];
      }
      if Linked(q, j) {
        var u :| 0 <= u < |q| && j in q[u];
        assert j in r[u];
      }
    }
  }

  lemma EnqueueOk(v: View, i: nat, t: nat)
    requires Ok(v) && i < |v.slots| && t < QUEUES && v.slots[i].onUsed && v.slots[i].queueUse < 31
    ensures Ok(Enqueued(v, i, t)) && Linked(Enqueued(v, i, t).queues, i)
  {
    hide Linked, Count, Held, Idle, Distinct, Refs;
    var s := v.slots[i].(queueUse := v.slots[i].queueUse + 1);
    CountUpdate(v.slots, i, s);
    HeldUpdate(v.slots, i, s);
    UnlinkedOk(v.queues, i, |v.slots|);
    JoinedOk(Unlinked(v.queues, i), t, i, |v.slots|);
    EnqueuedInOrder(v, i, t);
  }

  lemma EnqueuedInOrder(v: View, i: nat, t: nat)
    requires Ok(v) && i < |v.slots| && t < QUEUES
    ensures InOrder(Enqueued(v, i, t))
  {
    hide Linked, Count, Held, Idle, Distinct, Refs, SlotOk, Without, Pending;
    var w := Enqueued(v, i, t);
    forall u {:trigger w.queues[u]} | 0 <= u < |w.queues| ensures w.entered[u] == w.left[u] + w.queues[u] {
      WithdrawnOk(v, i, u);
    }
  }

  lemma DequeueOk(v: View, t: nat)
    requires Ok(v) && t < QUEUES && v.queues[t] != []
    ensures var i := v.queues[t][0]; i < |v.slots| && v.slots[i].queueUse > 0 && v.slots[i].onUsed
    ensures Ok(Dequeued(v, t)) && !Linked(Dequeued(v, t).queues, v.queues[t][0])
  {
    hide Linked, Count, Held, Idle, Distinct, Refs;
    HeadOffOk(v.queues, t, |v.slots|);
    var i := v.queues[t][0];
    assert i in v.queues[t];
    assert SlotOk(v.slots[i], v.flagged[i], true, v.extra[i]);
    var s := v.slots[i].(queueUse := v.slots[i].queueUse - 1);
    CountUpdate(v.slots, i, s);
    HeldUpdate(v.slots, i, s);
  }

  // ----- uses

  /** Whether a use is set. */
  predicate InUse(s: Slot, u: Usage) {
    match u
    case CodecReady => !s.notReady
    case CodecUse => s.codecUse
    case HalInput => s.halUse > 0
    case HalOutput => s.halOutput
    case QueueUse => s.queueUse > 0
  }

  /** A use that was set keeps the slot until the same use is cleared: no other clear makes it idle. */
  lemma UseHolds(s: Slot, u: Usage, w: Usage)
    requires u != CodecReady && s.halUse < 255 && s.queueUse < 31
    ensures InUse(AfterSet(s, u), u) && !Idle(AfterSet(s, u))
    ensures InUse(s, u) && w != u ==> InUse(AfterClr(s, w), u) && !Idle(AfterClr(s, w))
    ensures forall x: Usage :: x != u && x != CodecReady ==> (InUse(AfterSet(s, u), x) <==> InUse(s, x))
  {
    match u {
      case CodecUse =>
      case HalInput =>
      case HalOutput =>
      case QueueUse =>
    }
  }

  lemma SetOne(s: Slot, u: Usage, t: Slot)
    requires s.halUse < 255 && s.queueUse < 31
    requires match u
             case CodecReady => t == s.(notReady := false)
             case CodecUse => t == s.(codecUse := true)
             case HalInput => t == s.(halUse := s.halUse + 1)
             case HalOutput => t == s.(halOutput := true, notReady := true)
             case QueueUse => t == s.(queueUse := s.queueUse + 1)
    ensures AfterSet(s, u) == t
  {
  }

  lemma Undone(s: Slot, u: Usage, t: Slot)
    requires u == CodecUse ==> t == s.(codecUse := true) && !s.codecUse
    requires u == HalInput ==> t == s.(halUse := s.halUse + 1)
    requires u == HalOutput ==> t == s.(halOutput := true, notReady := true) && !s.halOutput
    requires u == QueueUse ==> t == s.(queueUse := s.queueUse + 1)
    requires u != CodecReady
    ensures AfterClr(t, u) == if u == HalOutput then s.(notReady := false) else s
  {
  }

  /** Clearing takes back exactly one set; a finished hardware output also makes the slot ready. */
  lemma ClearUndoesSet(s: Slot, u: Usage)
    requires u != CodecReady && s.halUse < 255 && s.queueUse < 31 && (u == CodecUse || u == HalOutput ==> !InUse(s, u))
    ensures AfterClr(AfterSet(s, u), u) == if u == HalOutput then s.(notReady := false) else s
  {
    hide AfterSet, AfterClr;
    match u {
      case CodecUse => SetOne(s, u, s.(codecUse := true));
      case HalInput => SetOne(s, u, s.(halUse := s.halUse + 1));
      case HalOutput => SetOne(s, u, s.(halOutput := true, notReady := true));
      case QueueUse => SetOne(s, u, s.(queueUse := s.queueUse + 1));
    }
    Undone(s, u, AfterSet(s, u));
  }

  // ----- limits

  /** The counters count until they wrap, and a wrapped counter reads as no use. */
  lemma CountersWrap(s: Slot)
    requires s.halUse < 256 && s.queueUse < 32
    ensures AfterSet(s, HalInput).halUse == s.halUse + 1 <==> s.halUse != 255
    ensures AfterSet(s, QueueUse).queueUse == s.queueUse + 1 <==> s.queueUse != 31
    ensures s.halUse == 255 && Idle(s.(halUse := 0)) ==> Idle(AfterSet(s, HalInput))
  {
  }

  /** Queue uses nobody will clear: neither a link nor a client's flag. */
  ghost function Excess(v: View, i: nat): int
    requires i < |v.slots| == |v.flagged|
  {
    v.slots[i].queueUse - v.flagged[i] - Digit(Linked(v.queues, i))
  }

  /** Enqueueing a slot that is linked already counts twice for one link; nothing takes it back. */
  lemma EnqueueExcess(v: View, i: nat, t: nat, j: nat)
    requires Ok(v) && i < |v.slots| && t < QUEUES && v.slots[i].onUsed && v.slots[i].queueUse < 31 && j < |v.slots|
    ensures Excess(Enqueued(v, i, t), j) == Excess(v, j) + (if i == j && Linked(v.queues, i) then 1 else 0)
  {
    hide Ok, Linked, Count, Held, Idle, Distinct;
    EnqueueOk(v, i, t);
    LinksAfter(v, i, t, j);
  }

  lemma LinksAfter(v: View, i: nat, t: nat, j: nat)
    requires Ok(v) && i < |v.slots| && t < QUEUES && v.slots[i].onUsed && v.slots[i].queueUse < 31
    ensures Linked(Enqueued(v, i, t).queues, j) <==> i == j || Linked(v.queues, j)
  {
    hide Linked, Count, Held, SlotOk, Distinct;
    UnlinkedOk(v.queues, i, |v.slots|);
    JoinedOk(Unlinked(v.queues, i), t, i, |v.slots|);
  }

  lemma DequeueExcess(v: View, t: nat, j: nat)
    requires Ok(v) && t < QUEUES && v.queues[t] != [] && j < |v.slots|
    ensures v.queues[t][0] < |v.slots| && v.slots[v.queues[t][0]].queueUse > 0
    ensures Excess(Dequeued(v, t), j) == Excess(v, j)
  {
    hide Linked, Count, Held, Idle, Distinct, SlotOk;
    DequeueOk(v, t);
    HeadOffOk(v.queues, t, |v.slots|);
  }

  lemma FlagExcess(v: View, i: nat, u: Usage, j: nat)
    requires Ok(v) && i < |v.slots| && j < |v.slots|
    ensures v.slots[i].queueUse < 31 || u != QueueUse ==> Excess(FlagSet(v, i, u), j) == Excess(v, j)
    ensures v.flagged[i] > 0 || u != QueueUse ==> Excess(FlagCleared(v, i, u), j) == Excess(v, j)
  {
    hide Linked, QueuesOk, Count, Held, InOrder, Refs, Checked, AfterClr, AfterSet;
    var s := v.slots[i];
    assert SlotOk(s, v.flagged[i], Linked(v.queues, i), v.extra[i]);
    assert AfterSet(s, u).queueUse == (s.queueUse + Digit(u == QueueUse)) % 32 by { SetCounts(s, u); }
    if v.flagged[i] > 0 || u != QueueUse { ClrCounts(s, u, v.flagged[i]); }
  }

  lemma SetCounts(s: Slot, u: Usage)
    requires s.queueUse < 32
    ensures AfterSet(s, u).queueUse == (s.queueUse + Digit(u == QueueUse)) % 32
  {
  }

  lemma ClrCounts(s: Slot, u: Usage, flagged: nat)
    requires s.queueUse >= flagged && (flagged > 0 || u != QueueUse)
    ensures Checked(AfterClr(s, u)).queueUse == s.queueUse - Digit(u == QueueUse)
  {
  }

  /** While there is excess the slot is not idle, so no clear releases it. */
  lemma ExcessHolds(v: View, i: nat)
    requires Ok(v) && i < |v.slots| && Excess(v, i) > 0
    ensures !Idle(v.slots[i]) && Checked(v.slots[i]) == v.slots[i]
  {
  }
}
