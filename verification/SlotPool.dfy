/** The pool's calls, on slots updated in place. */
module SlotPool {
  import opened Common
  import opened Slots
  import SlotRuns

  class Pool {
    const slots: array<Slot>
    var queues: seq<seq<nat>>
    var usedCount: int
    var decodeCount: nat
    var displayCount: nat
    ghost var flagged: seq<nat>
    ghost var held: multiset<nat>
    ghost var entered: seq<seq<nat>>
    ghost var left: seq<seq<nat>>
    ghost var extra: seq<nat>

    ghost function Now(): View
      reads this, slots
    {
      View(slots[..], queues, usedCount, flagged, held, entered, left, extra)
    }

    ghost predicate Valid()
      reads this, slots
    {
      |flagged| == |extra| == slots.Length && |queues| == |entered| == |left| == QUEUES && Ok(Now())
    }

    constructor (count: nat)
      ensures Valid() && fresh(slots) && slots.Length == count && usedCount == 0 && held == multiset{}
      ensures forall i :: 0 <= i < count ==> slots[i] == FRESH
      ensures forall t :: 0 <= t < QUEUES ==> queues[t] == []
    {
      slots := new Slot[count](_ => FRESH);
      queues := seq(QUEUES, _ => []);
      usedCount := 0;
      decodeCount := 0;
      displayCount := 0;
      flagged := seq(count, _ => 0);
      held := multiset{};
      entered := seq(QUEUES, _ => []);
      left := seq(QUEUES, _ => []);
      extra := seq(count, _ => 0);
      new;
      FreshOk(Now());
    }

    /** Puts the record back and accounts for it. */
    ghost method Account(i: nat, v: View)
      requires i < slots.Length == |v.slots| && Ok(v) && slots[..] == v.slots[i := slots[i]]
      requires Now() == v.(slots := slots[..], used := usedCount)
      requires usedCount == v.used - Digit(v.slots[i].onUsed) + Digit(slots[i].onUsed)
      requires SlotOk(slots[i], v.flagged[i], Linked(v.queues, i), v.extra[i])
      modifies this`held
      ensures Now() == Put(v, i, slots[i]) && Valid()
    {
      held := held - Refs(v.slots[i].buffer) + Refs(slots[i].buffer);
      PutOk(v, i, slots[i]);
    }

    /** The first slot that is not in use. */
    method GetUnused() returns (r: Option<nat>)
      requires Valid()
      modifies this, slots
      ensures Valid()
      ensures r.None? ==> Now() == old(Now()) && usedCount == slots.Length
      ensures r.Some? ==>
                && r.value < slots.Length && !old(slots[r.value].onUsed)
                && (forall j :: 0 <= j < r.value ==> old(slots[j].onUsed))
                && Now() == Put(old(Now()), r.value, old(slots[r.value]).(onUsed := true, notReady := true))
                         == SlotRuns.Step(old(Now()), SlotRuns.Take(r.value))
    {
      ghost var v := Now();
      for i := 0 to slots.Length
        invariant Now() == v
        invariant forall j :: 0 <= j < i ==> slots[j].onUsed
      {
        if !slots[i].onUsed {
          assert SlotOk(v.slots[i], v.flagged[i], Linked(v.queues, i), v.extra[i]);
          slots[i] := slots[i].(onUsed := true);
          slots[i] := slots[i].(notReady := true);
          usedCount := usedCount + 1;
          Account(i, v);
          return Some(i);
        }
      }
      CountBound(slots[..]);
      return None;
    }

    /** Sets a use of a slot the client holds. */
    method SetFlag(i: nat, u: Usage)
      requires Valid() && i < slots.Length && slots[i].onUsed
      requires u == HalInput ==> slots[i].halUse < 255
      requires u == QueueUse ==> slots[i].queueUse < 31
      modifies this, slots
      ensures Valid() && Now() == FlagSet(old(Now()), i, u)
      ensures SetTo(old(slots[i]), u, slots[i])
    {
      hide Ok, SetTo, AfterSet, SlotRuns.Step, SlotRuns.Allowed;
      ghost var v := Now();
      SetFields(v, i, u);
      SetFlagOk(v, i, u);
      slots[i] := AfterSet(slots[i], u);
      flagged := flagged[i := flagged[i] + Digit(u == QueueUse)];
      assert Now() == FlagSet(v, i, u);
    }

    /** Clears a use; the last one releases the slot and puts its buffer, nothing else does. */
    method ClrFlag(i: nat, u: Usage) returns (ok: bool)
      requires Valid() && i < slots.Length && slots[i].onUsed
      requires u == QueueUse ==> flagged[i] > 0
      modifies this, slots
      ensures Valid() && Now() == FlagCleared(old(Now()), i, u)
      ensures ClearedTo(old(slots[i]), u, slots[i])
      ensures ok == !ClrFails(old(slots[i]), u)
      ensures !slots[i].onUsed <==> Idle(AfterClr(old(slots[i]), u))
      ensures !slots[i].onUsed ==> !Linked(queues, i) && flagged[i] == 0 && held == old(held) - Refs(old(slots[i].buffer))
      ensures decodeCount == old(decodeCount) + (if u == HalOutput then 1 else 0)
    {
      hide Ok, Linked, Refs, AfterClr, Checked, Idle, ClrFails, ClearedTo;
      ghost var v := Now();
      ClrFlagOk(v, i, u);
      ClearFields(v, i, u);
      ok := !ClrFails(slots[i], u);
      ClearMark(i, u);
      if u == HalOutput {
        decodeCount := decodeCount + 1;
      }
    }

    /** The mark goes, and the slot with it if that was the last. */
    method ClearMark(i: nat, u: Usage)
      requires Valid() && i < slots.Length && slots[i].onUsed
      requires u == QueueUse ==> flagged[i] > 0
      modifies slots, this`flagged, this`usedCount, this`held
      ensures Valid() && Now() == FlagCleared(old(Now()), i, u)
    {
      hide Ok, Linked, Refs, AfterClr, Checked, Idle, FlagCleared;
      ghost var v := Now();
      ClrFlagOk(v, i, u);
      slots[i] := AfterClr(slots[i], u);
      assert slots[..] == v.slots[i := AfterClr(v.slots[i], u)];
      flagged := flagged[i := flagged[i] - Digit(u == QueueUse)];
      CheckUnused(i);
      assert slots[..] == v.slots[i := Checked(AfterClr(v.slots[i], u))];
      assert flagged == v.flagged[i := v.flagged[i] + (0 - Digit(u == QueueUse))];
      ClearedIs(v, i, u, Now());
    }

    method CheckUnused(i: nat)
      requires i < slots.Length && Refs(slots[i].buffer) <= held
      requires (slots[i].hasFrame <==> slots[i].frame.Some?) && (slots[i].hasBuffer <==> slots[i].buffer.Some?)
      modifies slots, this`usedCount, this`held
      ensures slots[..] == old(slots[..])[i := Checked(old(slots[i]))]
      ensures usedCount == old(usedCount) - Digit(old(slots[i].onUsed)) + Digit(slots[i].onUsed)
      ensures held == old(held) - Refs(old(slots[i].buffer)) + Refs(slots[i].buffer)
    {
      var s := slots[i];
      if s.onUsed && !s.notReady && !s.codecUse && !s.halOutput && s.halUse == 0 && s.queueUse == 0 {
        if s.frame.Some? {
          s := s.(hasFrame := false);
          s := s.(frame := None);
        }
        if s.buffer.Some? {
          held := held - Refs(s.buffer);
          s := s.(hasBuffer := false);
          s := s.(buffer := None);
        }
        slots[i] := s.(onUsed := false);
        usedCount := usedCount - 1;
      }
    }

    /** Unlinks the slot from any queue and links it at the end of queue `t`. */
    method Enqueue(i: nat, t: nat)
      requires Valid() && i < slots.Length && t < QUEUES
      requires slots[i].onUsed && slots[i].queueUse < 31
      modifies this, slots
      ensures Valid() && Now() == Enqueued(old(Now()), i, t) && Linked(queues, i)
      ensures queues[t] == Without(old(queues[t]), i) + [i] && forall u :: 0 <= u < QUEUES && u != t ==> queues[u] == Without(old(queues[u]), i)
      ensures slots[i] == old(slots[i]).(queueUse := old(slots[i].queueUse) + 1)
    {
      hide Linked, Ok, Enqueued, Unlinked, Withdrawn, Without;
      ghost var v := Now();
      EnqueuedAt(v, i, t);
      Relink(i, t);
    }

    /** The link goes from where it was to the end of queue `t`, and counts as a use. */
    method Relink(i: nat, t: nat)
      requires Valid() && i < slots.Length && t < QUEUES
      requires slots[i].onUsed && slots[i].queueUse < 31
      modifies this`queues, this`entered, this`extra, slots
      ensures Valid() && Now() == Enqueued(old(Now()), i, t)
    {
      hide Linked, Ok, Enqueued;
      ghost var v := Now();
      EnqueueOk(v, i, t);
      EnqueuedIs(v, i, t);
      slots[i] := slots[i].(queueUse := (slots[i].queueUse + 1) % 32);
      extra := extra[i := extra[i] + Digit(Linked(queues, i))];
      queues := Unlinked(queues, i);
      queues := queues[t := queues[t] + [i]];
      entered := Withdrawn(entered, left, i);
      entered := entered[t := entered[t] + [i]];
    }

    /** The head of the queue, when it is ready; its use count is taken back without a release. */
    method Dequeue(t: nat) returns (r: Option<nat>)
      requires Valid() && t < QUEUES
      modifies this, slots
      ensures Valid()
      ensures var q := old(queues[t]);
              && (r.None? <==> q == [] || (q[0] < slots.Length && old(slots[q[0]].notReady)))
              && (r.None? ==> Now() == old(Now()))
              && Now() == SlotRuns.Step(old(Now()), SlotRuns.Dequeue(t)) && r == SlotRuns.Given(old(Now()), SlotRuns.Dequeue(t))
              && (r.Some? ==> queues == old(queues)[t := q[1..]] && r.value < slots.Length
                              && slots[r.value].queueUse == old(slots[q[0]].queueUse) - 1)
              && (r.Some? ==> r.value == q[0] && Now() == Dequeued(old(Now()), t) && displayCount == old(displayCount) + 1
                              && !slots[r.value].notReady && slots[r.value].onUsed)
    {
      hide Linked, Ok, Dequeued;
      if queues[t] == [] {
        return None;
      }
      ghost var v := Now();
      DequeueOk(v, t);
      DequeuedIs(v, t);
      var i := queues[t][0];
      if slots[i].notReady {
        return None;
      }
      queues := queues[t := queues[t][1..]];
      slots[i] := slots[i].(queueUse := slots[i].queueUse - 1);
      displayCount := displayCount + 1;
      left := left[t := left[t] + [i]];
      return Some(i);
    }

    method SetEos(i: nat, eos: nat)
      requires Valid() && i < slots.Length
      modifies this, slots
      ensures Valid() && Now() == Put(old(Now()), i, old(slots[i]).(eosFlag := true, eos := eos))
    {
      ghost var v := Now();
      assert SlotOk(v.slots[i], v.flagged[i], Linked(v.queues, i), v.extra[i]);
      slots[i] := slots[i].(eosFlag := true);
      slots[i] := slots[i].(eos := eos);
      Account(i, v);
    }

    /** The first frame makes the slot's own copy, later ones overwrite it. */
    method SetFrame(i: nat, copy: nat)
      requires Valid() && i < slots.Length && slots[i].onUsed && slots[i].notReady
      modifies this, slots
      ensures Valid()
      ensures var f := if old(slots[i].frame).Some? then old(slots[i].frame) else Some(copy);
              Now() == Put(old(Now()), i, old(slots[i]).(hasFrame := true, frame := f))
    {
      ghost var v := Now();
      assert SlotOk(v.slots[i], v.flagged[i], Linked(v.queues, i), v.extra[i]);
      slots[i] := slots[i].(hasFrame := true);
      if slots[i].frame.None? {
        slots[i] := slots[i].(frame := Some(copy));
      }
      Account(i, v);
    }

    /** Puts the reference the slot holds, and takes one to the new buffer. */
    method SetBuffer(i: nat, buffer: nat)
      requires Valid() && i < slots.Length && slots[i].onUsed
      requires slots[i].buffer.Some? ==> slots[i].frame.None?
      modifies this, slots
      ensures Valid() && Now() == Put(old(Now()), i, old(slots[i]).(hasBuffer := true, buffer := Some(buffer)))
      ensures held == old(held) - Refs(old(slots[i].buffer)) + multiset{buffer}
    {
      ghost var v := Now();
      assert SlotOk(v.slots[i], v.flagged[i], Linked(v.queues, i), v.extra[i]);
      slots[i] := slots[i].(hasBuffer := true);
      slots[i] := slots[i].(buffer := Some(buffer));
      Account(i, v);
    }

    /** A slot being filled gets the pool's current frame description and is ready. */
    method DefaultInfo(i: nat, frame: nat)
      requires Valid() && i < slots.Length && slots[i].onUsed && slots[i].notReady && slots[i].frame.None?
      modifies this, slots
      ensures Valid()
      ensures Now() == Put(old(Now()), i, old(slots[i]).(notReady := false, hasFrame := true, frame := Some(frame)))
                    == SlotRuns.Step(old(Now()), SlotRuns.Default(i, frame))
    {
      ghost var v := Now();
      assert SlotOk(v.slots[i], v.flagged[i], Linked(v.queues, i), v.extra[i]);
      slots[i] := slots[i].(frame := Some(frame));
      slots[i] := slots[i].(notReady := false);
      slots[i] := slots[i].(hasFrame := true);
      Account(i, v);
    }

    method UnusedCount() returns (n: nat)
      requires Valid()
      ensures n == slots.Length - Count(slots[..])
    {
      CountBound(slots[..]);
      n := slots.Length - usedCount;
    }
  }

  /** What a clear leaves of the slot's marks, released or not. */
  ghost predicate ClearedTo(s: Slot, u: Usage, t: Slot) {
    && t.notReady == (if u == HalOutput then false else if u == CodecReady then true else s.notReady)
    && t.codecUse == (u != CodecUse && s.codecUse) && t.halOutput == (u != HalOutput && s.halOutput)
    && t.halUse == s.halUse - Digit(u == HalInput && s.halUse > 0) && t.queueUse == s.queueUse - Digit(u == QueueUse)
    && (!t.onUsed <==> !t.notReady && !t.codecUse && !t.halOutput && t.halUse == 0 && t.queueUse == 0)
  }

  lemma ClearFields(v: View, i: nat, u: Usage)
    requires Ok(v) && i < |v.slots| && v.slots[i].onUsed && (u == QueueUse ==> v.flagged[i] > 0)
    ensures ClearedTo(v.slots[i], u, Checked(AfterClr(v.slots[i], u)))
    ensures FlagCleared(v, i, u) == SlotRuns.Step(v, SlotRuns.Clear(i, u))
  {
    hide Linked, Count, Held, Refs, QueuesOk, InOrder, Checked, AfterClr, ClearedTo, Idle;
    assert SlotOk(v.slots[i], v.flagged[i], Linked(v.queues, i), v.extra[i]);
    ClearSlot(v.slots[i], u);
  }

  lemma ClearSlot(s: Slot, u: Usage)
    requires s.onUsed && (u == QueueUse ==> s.queueUse > 0)
    ensures ClearedTo(s, u, Checked(AfterClr(s, u)))
  {
    hide AfterClr;
    ClearOnly(s, u);
  }

  lemma ClearOnly(s: Slot, u: Usage)
    requires u == QueueUse ==> s.queueUse > 0
    ensures var t := AfterClr(s, u);
            && t.notReady == (if u == HalOutput then false else if u == CodecReady then true else s.notReady)
            && t.codecUse == (u != CodecUse && s.codecUse) && t.halOutput == (u != HalOutput && s.halOutput)
            && t.halUse == s.halUse - Digit(u == HalInput && s.halUse > 0) && t.queueUse == s.queueUse - Digit(u == QueueUse)
            && t.onUsed == s.onUsed
  {
    hide AfterClr;
    ClearReady(s, u);
    ClearFlags(s, u);
    ClearCounts(s, u);
  }

  lemma ClearReady(s: Slot, u: Usage)
    ensures AfterClr(s, u).notReady == (if u == HalOutput then false else if u == CodecReady then true else s.notReady)
    ensures AfterClr(s, u).onUsed == s.onUsed
  {
  }

  lemma ClearFlags(s: Slot, u: Usage)
    ensures AfterClr(s, u).codecUse == (u != CodecUse && s.codecUse)
    ensures AfterClr(s, u).halOutput == (u != HalOutput && s.halOutput)
  {
  }

  lemma ClearCounts(s: Slot, u: Usage)
    requires u == QueueUse ==> s.queueUse > 0
    ensures AfterClr(s, u).halUse == if u == HalInput && s.halUse > 0 then s.halUse - 1 else s.halUse
    ensures AfterClr(s, u).queueUse == if u == QueueUse then s.queueUse - 1 else s.queueUse
  {
  }

  /** What a set leaves of them. */
  ghost predicate SetTo(s: Slot, u: Usage, t: Slot) {
    && t.notReady == (if u == HalOutput then true else if u == CodecReady then false else s.notReady)
    && t.codecUse == (u == CodecUse || s.codecUse) && t.halOutput == (u == HalOutput || s.halOutput)
    && t.halUse == s.halUse + Digit(u == HalInput) && t.queueUse == s.queueUse + Digit(u == QueueUse)
    && t.onUsed == s.onUsed && t.frame == s.frame && t.buffer == s.buffer
  }

  lemma SetFields(v: View, i: nat, u: Usage)
    requires Ok(v) && i < |v.slots| && v.slots[i].onUsed
    requires (u == HalInput ==> v.slots[i].halUse < 255) && (u == QueueUse ==> v.slots[i].queueUse < 31)
    ensures SetTo(v.slots[i], u, AfterSet(v.slots[i], u))
    ensures FlagSet(v, i, u) == SlotRuns.Step(v, SlotRuns.Set(i, u))
  {
    hide Linked, Count, Held, Refs, QueuesOk, InOrder, SlotOk;
  }

  /** Where an enqueue puts the slot, and what it leaves of the queues. */
  lemma EnqueuedAt(v: View, i: nat, t: nat)
    requires Ok(v) && i < |v.slots| && t < QUEUES && v.slots[i].onUsed && v.slots[i].queueUse < 31
    ensures |v.queues| == |v.entered| == |v.left| == QUEUES && |v.extra| == |v.slots|
    ensures var w := Enqueued(v, i, t);
            && w == SlotRuns.Step(v, SlotRuns.Enqueue(i, t)) && Linked(w.queues, i) && |w.queues| == QUEUES
            && w.queues[t] == Without(v.queues[t], i) + [i]
            && (forall u :: 0 <= u < QUEUES && u != t ==> w.queues[u] == Without(v.queues[u], i))
            && w.slots == v.slots[i := v.slots[i].(queueUse := v.slots[i].queueUse + 1)]
  {
    hide Linked, SlotOk, Count, Held, Refs, Without;
    EnqueueOk(v, i, t);
  }

  /** Only the use count, the queues and the history change. */
  lemma EnqueuedIs(v: View, i: nat, t: nat)
    requires Ok(v) && i < |v.slots| && t < QUEUES && v.slots[i].queueUse < 31
    ensures |v.extra| == |v.slots| && |v.entered| == |v.left| == |v.queues| == QUEUES
    ensures var q, e := Unlinked(v.queues, i), Withdrawn(v.entered, v.left, i);
            Enqueued(v, i, t) == v.(slots := v.slots[i := v.slots[i].(queueUse := (v.slots[i].queueUse + 1) % 32)],
                                    queues := q[t := q[t] + [i]], entered := e[t := e[t] + [i]],
                                    extra := v.extra[i := v.extra[i] + Digit(Linked(v.queues, i))])
  {
    hide Linked, SlotOk, Withdrawn, Unlinked, Count, Held, Refs;
    HeldUpdate(v.slots, i, v.slots[i]);
  }

  lemma DequeuedIs(v: View, t: nat)
    requires Ok(v) && t < QUEUES && v.queues[t] != []
    requires v.queues[t][0] < |v.slots| && v.slots[v.queues[t][0]].queueUse > 0
    ensures |v.left| == |v.queues|
    ensures var i := v.queues[t][0];
            Dequeued(v, t) == v.(slots := v.slots[i := v.slots[i].(queueUse := v.slots[i].queueUse - 1)],
                                 queues := v.queues[t := v.queues[t][1..]], left := v.left[t := v.left[t] + [i]])
  {
    hide Linked, SlotOk, Count, Held, Refs;
    HeldUpdate(v.slots, v.queues[t][0], v.slots[v.queues[t][0]]);
  }

  lemma ClearedIs(v: View, i: nat, u: Usage, t: View)
    requires i < |v.slots| == |v.flagged| && (u == QueueUse ==> v.flagged[i] > 0)
    requires var s := Checked(AfterClr(v.slots[i], u));
             t == v.(slots := v.slots[i := s], used := v.used - Digit(v.slots[i].onUsed) + Digit(s.onUsed),
                     held := v.held - Refs(v.slots[i].buffer) + Refs(s.buffer),
                     flagged := v.flagged[i := v.flagged[i] + (0 - Digit(u == QueueUse))])
    ensures t == FlagCleared(v, i, u)
  {
  }

  lemma FreshOk(v: View)
    requires |v.flagged| == |v.slots| == |v.extra| && |v.queues| == |v.entered| == |v.left| == QUEUES
    requires (forall i :: 0 <= i < |v.slots| ==> v.slots[i] == FRESH && v.flagged[i] == v.extra[i] == 0)
    requires (forall t :: 0 <= t < QUEUES ==> v.queues[t] == [] && v.entered[t] == [] && v.left[t] == [])
    requires v.used == 0 && v.held == multiset{}
    ensures Ok(v)
  {
    FreshCount(v.slots);
  }

  lemma {:induction false} FreshCount(s: seq<Slot>)
    requires forall i :: 0 <= i < |s| ==> s[i] == FRESH
    ensures Count(s) == 0 && Held(s) == multiset{}
  {
    if s != [] { FreshCount(s[1..]); }
  }
}
