/**
 The state word of a scheduler node: five flags of a 32-bit integer that every
 thread changes by compare-and-swap only.  The scheduler model works on the
 flags; the lemmas here show that each expression the program computes on the
 integer is the flag change the model makes.
 */
module NodeWord {

  const NODE_VALID: bv32 := 0x01
  const NODE_IDLE: bv32 := 0x02
  const NODE_SIGNAL: bv32 := 0x04
  const NODE_WAIT: bv32 := 0x08
  const NODE_RUN: bv32 := 0x10

  datatype Word = Word(valid: bool, idle: bool, signal: bool, wait: bool, run: bool)

  const ATTACHED := Word(true, true, false, false, false)
  const ZERO := Word(false, false, false, false, false)

  function Flag(b: bool, mask: bv32): bv32 {
    if b then mask else 0
  }

  /** The integer that holds exactly the given flags. */
  function Bits(w: Word): bv32 {
    Flag(w.valid, NODE_VALID) | Flag(w.idle, NODE_IDLE) | Flag(w.signal, NODE_SIGNAL)
    | Flag(w.wait, NODE_WAIT) | Flag(w.run, NODE_RUN)
  }

  /** Idle node claimed by a trigger. */
  function IdleToWait(w: Word): Word {
    w.(idle := !w.idle, wait := !w.wait)
  }

  function SetSignal(w: Word): Word {
    w.(signal := true)
  }

  function ClearValid(w: Word): Word {
    w.(valid := false)
  }

  /** Queued node taken by a worker. */
  function WaitToRun(w: Word): Word {
    w.(wait := !w.wait, run := !w.run)
  }

  /** Signalled node sent back to its queue. */
  function SignalToWait(w: Word): Word {
    w.(signal := !w.signal, wait := !w.wait, run := !w.run)
  }

  function RunToIdle(w: Word): Word {
    w.(idle := !w.idle, run := !w.run)
  }

  /** Exactly one of the three life-cycle flags is set. */
  predicate OneHot(w: Word) {
    (w.idle && !w.wait && !w.run) || (!w.idle && w.wait && !w.run) || (!w.idle && !w.wait && w.run)
  }

  /** The tests of the program on the integer read the flags of the model. */
  lemma TestsReadFlags(w: Word)
    ensures w.valid <==> Bits(w) & NODE_VALID != 0
    ensures w.idle <==> Bits(w) & NODE_IDLE != 0
    ensures w.signal <==> Bits(w) & NODE_SIGNAL != 0
    ensures w.wait <==> Bits(w) & NODE_WAIT != 0
    ensures w.run <==> Bits(w) & NODE_RUN != 0
  {
  }

  /** A compare-and-swap succeeds on the integer exactly when it does on the flags. */
  lemma BitsInjective(v: Word, w: Word)
    ensures Bits(v) == Bits(w) <==> v == w
  {
    if Bits(v) == Bits(w) {
      TestsReadFlags(v);
      TestsReadFlags(w);
    }
  }

  /** The right-hand sides of the compare-and-swaps are the flag changes of the model. */
  lemma SwapsChangeFlags(w: Word)
    ensures Bits(IdleToWait(w)) == Bits(w) ^ (NODE_IDLE | NODE_WAIT)
    ensures Bits(SetSignal(w)) == Bits(w) | NODE_SIGNAL
    ensures Bits(ClearValid(w)) == Bits(w) & !NODE_VALID
    ensures Bits(WaitToRun(w)) == Bits(w) ^ (NODE_WAIT | NODE_RUN)
    ensures Bits(SignalToWait(w)) == Bits(w) ^ (NODE_SIGNAL | NODE_WAIT | NODE_RUN)
    ensures Bits(RunToIdle(w)) == Bits(w) ^ (NODE_IDLE | NODE_RUN)
    ensures Bits(ATTACHED) == NODE_VALID | NODE_IDLE
    ensures Bits(ZERO) == 0
  {
  }
}
