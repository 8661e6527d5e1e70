/**
 Slots over many calls: what the marks set and cleared so far say about readiness and
 release, and that a slot the hardware writes is not handed out.
 */
module SlotRuns {
  import opened Common
  import opened Slots

  // ----- one slot, by its history

  datatype Mark = Sets(u: Usage) | Clears(u: Usage)

  /** Readiness is what the last mark that bears on it says; a slot just taken is not ready. */
  function Ready(h: seq<Mark>): bool {
    if h == [] then false
    else match h[|h| - 1]
      case Sets(CodecReady) => true
      case Clears(CodecReady) => false
      case Sets(HalOutput) => false
      case Clears(HalOutput) => true
      case _ => Ready(h[..|h| - 1])
  }

  /** The sets of a use that no clear has answered; a flag is set once however often it is set. */
  function Unanswered(h: seq<Mark>, u: Usage): nat {
    if h == [] then 0
    else
      var before, m := Unanswered(h[..|h| - 1], u), h[|h| - 1];
      if m == Sets(u) then (if u == HalInput || u == QueueUse then before + 1 else 1)
      else if m == Clears(u) then (if u == HalInput || u == QueueUse then (if before > 0 then before - 1 else 0) else 0)
      else before
  }

  predicate NoUse(h: seq<Mark>) {
    forall u: Usage :: u != CodecReady ==> Unanswered(h, u) == 0
  }

  /** A slot just taken, with the marks made one after the other. */
  function Marked(s: Slot, h: seq<Mark>): Slot {
    if h == [] then s
    else
      var t := Marked(s, h[..|h| - 1]);
      match h[|h| - 1]
      case Sets(u) => AfterSet(t, u)
      case Clears(u) => Checked(AfterClr(t, u))
  }

  /** No counter runs over, and nothing has been released on the way. */
  predicate Going(h: seq<Mark>) {
    forall k :: 0 <= k <= |h| ==>
      && Unanswered(h[..k], HalInput) < 256 && Unanswered(h[..k], QueueUse) < 32
      && (k < |h| ==> !Done(h[..k]))
  }

  /** The last mark was a clear that left the slot ready and unused. */
  predicate Done(h: seq<Mark>) {
    h != [] && h[|h| - 1].Clears? && Ready(h) && NoUse(h)
  }

  ghost predicate Matches(s: Slot, h: seq<Mark>) {
    && s.notReady == !Ready(h)
    && s.codecUse == (Unanswered(h, CodecUse) > 0) && s.halOutput == (Unanswered(h, HalOutput) > 0)
    && s.halUse == Unanswered(h, HalInput) && s.queueUse == Unanswered(h, QueueUse)
  }

  lemma {:induction false} FlagsAtMostOne(h: seq<Mark>)
    ensures Unanswered(h, CodecUse) <= 1 && Unanswered(h, HalOutput) <= 1
  {
    if h != [] { FlagsAtMostOne(h[..|h| - 1]); }
  }

  lemma MarkMatches(s: Slot, g: seq<Mark>, m: Mark)
    requires Matches(s, g)
    requires Unanswered(g, HalInput) < 256 && Unanswered(g, QueueUse) < 32
    requires Unanswered(g + [m], HalInput) < 256 && Unanswered(g + [m], QueueUse) < 32
    ensures Matches(match m case Sets(u) => AfterSet(s, u) case Clears(u) => AfterClr(s, u), g + [m])
  {
    hide Matches;
    match m
    case Sets(u) => SetMatches(s, g, u);
    case Clears(u) => ClearMatches(s, g, u);
  }

  lemma SetMatches(s: Slot, g: seq<Mark>, u: Usage)
    requires Matches(s, g) && Unanswered(g, HalInput) < 256 && Unanswered(g, QueueUse) < 32
    requires Unanswered(g + [Sets(u)], HalInput) < 256 && Unanswered(g + [Sets(u)], QueueUse) < 32
    ensures Matches(AfterSet(s, u), g + [Sets(u)])
  {
    hide Unanswered, Ready;
    forall w: Usage { MarkCounts(g, Sets(u), w); }
    MarkReady(g, Sets(u));
  }

  lemma ClearMatches(s: Slot, g: seq<Mark>, u: Usage)
    requires Matches(s, g)
    ensures Matches(AfterClr(s, u), g + [Clears(u)])
  {
    hide Unanswered, Ready;
    forall w: Usage { MarkCounts(g, Clears(u), w); }
    MarkReady(g, Clears(u));
  }

  /** A mark bears on its own use only. */
  lemma MarkCounts(g: seq<Mark>, m: Mark, w: Usage)
    ensures m.u != w ==> Unanswered(g + [m], w) == Unanswered(g, w)
    ensures m == Sets(w) ==> Unanswered(g + [m], w) == if w == HalInput || w == QueueUse then Unanswered(g, w) + 1 else 1
    ensures m == Clears(w) ==> Unanswered(g + [m], w)
                               == if (w == HalInput || w == QueueUse) && Unanswered(g, w) > 0 then Unanswered(g, w) - 1 else 0
  {
    assert (g + [m])[..|g|] == g;
  }

  lemma MarkReady(g: seq<Mark>, m: Mark)
    ensures Ready(g + [m]) == if m == Sets(CodecReady) || m == Clears(HalOutput) then true
                              else if m == Clears(CodecReady) || m == Sets(HalOutput) then false else Ready(g)
  {
    assert (g + [m])[..|g|] == g;
  }

  lemma MatchesIdle(s: Slot, h: seq<Mark>)
    requires Matches(s, h)
    ensures Idle(s) <==> Ready(h) && NoUse(h)
  {
    FlagsAtMostOne(h);
  }

  /** A slot that was taken is released by exactly the clear that leaves it ready and every use answered. */
  lemma {:induction false} ReleasedIff(s: Slot, h: seq<Mark>)
    requires s.onUsed && s.notReady && !s.codecUse && !s.halOutput && s.halUse == 0 && s.queueUse == 0 && Going(h)
    ensures Marked(s, h).onUsed <==> !Done(h)
    ensures Matches(Marked(s, h), h)
  {
    hide Matches, AfterSet, AfterClr, Idle, NoUse, Ready;
    if h == [] {
      NothingMarked(s);
    } else {
      var g, m := h[..|h| - 1], h[|h| - 1];
      assert g + [m] == h && h[..|h|] == h;
      assert Going(g) by { GoingFront(h); }
      ReleasedIff(s, g);
      assert !Done(g);
      var t := Marked(s, g);
      MarkMatches(t, g, m);
      if m.Clears? { MatchesIdle(AfterClr(t, m.u), h); ReleaseKeeps(t, m.u, h); } else { SetKeeps(t, m.u); }
    }
  }

  lemma NothingMarked(s: Slot)
    requires s.notReady && !s.codecUse && !s.halOutput && s.halUse == 0 && s.queueUse == 0
    ensures Matches(s, [])
  {
  }

  lemma GoingFront(h: seq<Mark>)
    requires h != [] && Going(h)
    ensures Going(h[..|h| - 1]) && !Done(h[..|h| - 1])
  {
    var g := h[..|h| - 1];
    forall k | 0 <= k <= |g|
      ensures Unanswered(g[..k], HalInput) < 256 && Unanswered(g[..k], QueueUse) < 32 && (k < |g| ==> !Done(g[..k]))
    {
      assert g[..k] == h[..k];
    }
  }

  lemma SetKeeps(s: Slot, u: Usage)
    ensures AfterSet(s, u).onUsed == s.onUsed
  {
  }

  lemma ReleaseKeeps(s: Slot, u: Usage, h: seq<Mark>)
    requires Matches(AfterClr(s, u), h)
    ensures Matches(Checked(AfterClr(s, u)), h)
    ensures s.onUsed ==> (Checked(AfterClr(s, u)).onUsed <==> !Idle(AfterClr(s, u)))
  {
  }

  /** Made ready, used by the hardware for input, and given back: the packet slot is released. */
  lemma PacketReleased(s: Slot)
    requires s.onUsed && s.notReady && !s.codecUse && !s.halOutput && s.halUse == 0 && s.queueUse == 0
    ensures !Marked(s, [Sets(CodecReady), Sets(HalInput), Clears(HalInput)]).onUsed
  {
    var h := [Sets(CodecReady), Sets(HalInput), Clears(HalInput)];
    assert h[..2] == [Sets(CodecReady), Sets(HalInput)] && h[..2][..1] == [Sets(CodecReady)] && h[..2][..1][..0] == [];
    assert Marked(s, h[..2][..1]) == s.(notReady := false);
    assert Marked(s, h[..2]) == s.(notReady := false, halUse := 1);
  }

  // ----- the pool over its calls

  datatype Op =
    | Take(i: nat)
    | Set(i: nat, u: Usage)
    | Clear(i: nat, u: Usage)
    | Enqueue(i: nat, t: nat)
    | Dequeue(t: nat)
    | Eos(i: nat, eos: nat)
    | Frame(i: nat, copy: nat)
    | Buffer(i: nat, buffer: nat)
    | Default(i: nat, frame: nat)

  ghost predicate Allowed(v: View, op: Op) {
    Ok(v) &&
    match op
    case Take(i) => i < |v.slots| && !v.slots[i].onUsed && forall j :: 0 <= j < i ==> v.slots[j].onUsed
    case Set(i, u) =>
      && i < |v.slots| && v.slots[i].onUsed
      && (u == HalInput ==> v.slots[i].halUse < 255) && (u == QueueUse ==> v.slots[i].queueUse < 31)
    case Clear(i, u) => i < |v.slots| && v.slots[i].onUsed && (u == QueueUse ==> v.flagged[i] > 0)
    case Enqueue(i, t) => i < |v.slots| && t < QUEUES && v.slots[i].onUsed && v.slots[i].queueUse < 31
    case Dequeue(t) => t < QUEUES
    case Eos(i, _) => i < |v.slots|
    case Frame(i, _) => i < |v.slots| && v.slots[i].onUsed && v.slots[i].notReady
    case Buffer(i, _) => i < |v.slots| && v.slots[i].onUsed && (v.slots[i].buffer.Some? ==> v.slots[i].frame.None?)
    case Default(i, _) => i < |v.slots| && v.slots[i].onUsed && v.slots[i].notReady && v.slots[i].frame.None?
  }

  /** The slot a dequeue hands out. */
  ghost function Given(v: View, op: Op): Option<nat>
    requires Allowed(v, op)
  {
    if op.Dequeue? && v.queues[op.t] != [] && v.queues[op.t][0] < |v.slots| && !v.slots[v.queues[op.t][0]].notReady
    then Some(v.queues[op.t][0]) else None
  }

  ghost function Step(v: View, op: Op): View
    requires Allowed(v, op)
  {
    match op
    case Take(i) => Put(v, i, v.slots[i].(onUsed := true, notReady := true))
    case Set(i, u) => FlagSet(v, i, u)
    case Clear(i, u) => FlagCleared(v, i, u)
    case Enqueue(i, t) => Enqueued(v, i, t)
    case Dequeue(t) => if Given(v, op).Some? then (DequeueOk(v, t); Dequeued(v, t)) else v
    case Eos(i, eos) => Put(v, i, v.slots[i].(eosFlag := true, eos := eos))
    case Frame(i, copy) =>
      Put(v, i, v.slots[i].(hasFrame := true, frame := if v.slots[i].frame.Some? then v.slots[i].frame else Some(copy)))
    case Buffer(i, buffer) => Put(v, i, v.slots[i].(hasBuffer := true, buffer := Some(buffer)))
    case Default(i, frame) => Put(v, i, v.slots[i].(notReady := false, hasFrame := true, frame := Some(frame)))
  }

  lemma StepOk(v: View, op: Op)
    requires Allowed(v, op)
    ensures Ok(Step(v, op))
  {
    hide Linked, Count, Held, Refs, QueuesOk, InOrder, Enqueued, Dequeued;
    match op
    case Set(i, u) => SetFlagOk(v, i, u);
    case Clear(i, u) => ClrFlagOk(v, i, u);
    case Enqueue(i, t) => EnqueueOk(v, i, t);
    case Dequeue(t) => if Given(v, op).Some? { DequeueOk(v, t); }
    case _ =>
      var s := v.slots[op.i];
      assert SlotOk(s, v.flagged[op.i], Linked(v.queues, op.i), v.extra[op.i]);
      PutOk(v, op.i, Step(v, op).slots[op.i]);
  }

  ghost predicate Runs(v: View, ops: seq<Op>)
    decreases |ops|
  {
    ops == [] || (Allowed(v, ops[0]) && Runs(Step(v, ops[0]), ops[1..]))
  }

  ghost function After(v: View, ops: seq<Op>): View
    requires Runs(v, ops)
    decreases |ops|
  {
    if ops == [] then v else After(Step(v, ops[0]), ops[1..])
  }

  /** The hardware writes the slot: it is used and not ready. */
  predicate Writing(v: View, i: nat) {
    i < |v.slots| && v.slots[i].onUsed && v.slots[i].halOutput && v.slots[i].notReady
  }

  /** The calls that make a slot ready. */
  predicate MakesReady(op: Op, i: nat) {
    op == Clear(i, HalOutput) || op == Set(i, CodecReady) || (op.Default? && op.i == i)
  }

  lemma SetWrites(v: View, i: nat)
    requires Allowed(v, Set(i, HalOutput))
    ensures Writing(Step(v, Set(i, HalOutput)), i)
  {
  }

  lemma WritingStep(v: View, op: Op, i: nat)
    requires Allowed(v, op) && Writing(v, i) && !MakesReady(op, i)
    ensures Writing(Step(v, op), i) && Given(v, op) != Some(i)
  {
    hide Ok, Linked, Count, Held, Refs;
    assert Ok(v);
    if op.Dequeue? && Given(v, op).Some? { DequeuedSlots(v, op.t, i); }
  }

  lemma DequeuedSlots(v: View, t: nat, i: nat)
    requires Ok(v) && t < QUEUES && v.queues[t] != [] && i < |v.slots| && v.queues[t][0] != i
    ensures v.queues[t][0] < |v.slots| && v.slots[v.queues[t][0]].queueUse > 0
    ensures i < |Dequeued(v, t).slots| && Dequeued(v, t).slots[i] == v.slots[i]
  {
    hide Linked, Count, Held, Refs, Distinct, SlotOk;
    DequeueOk(v, t);
  }

  predicate NeverReady(ops: seq<Op>, i: nat) {
    forall op <- ops :: !MakesReady(op, i)
  }

  ghost predicate HandsOut(v: View, ops: seq<Op>, i: nat)
    requires Runs(v, ops)
    decreases |ops|
  {
    ops != [] && (Given(v, ops[0]) == Some(i) || HandsOut(Step(v, ops[0]), ops[1..], i))
  }

  /** No dequeue hands out a slot between its being set to hardware output and a call that makes it ready. */
  lemma {:induction false} NotHandedOut(v: View, ops: seq<Op>, i: nat)
    requires Runs(v, ops) && Writing(v, i) && NeverReady(ops, i)
    ensures Writing(After(v, ops), i) && !HandsOut(v, ops, i)
    decreases |ops|
  {
    hide Allowed, Step, Given, Writing, MakesReady;
    if ops != [] {
      assert ops[0] in ops && forall op <- ops[1..] :: op in ops;
      WritingStep(v, ops[0], i);
      NotHandedOut(Step(v, ops[0]), ops[1..], i);
    }
  }

  /** Every run of calls keeps the pool in order. */
  lemma {:induction false} RunOk(v: View, ops: seq<Op>)
    requires Ok(v) && Runs(v, ops)
    ensures Ok(After(v, ops))
    decreases |ops|
  {
    hide Allowed, Step, Ok;
    if ops != [] {
      StepOk(v, ops[0]);
      RunOk(Step(v, ops[0]), ops[1..]);
    }
  }
}
