/**
 The OpenMAX component: a ring of buffer headers a port, and the thread that turns
 commands into accepted, processed, flushed and returned headers.
 */
module PortRings {
  import opened Rings

  /** One port's buffer list, with its end fixed by the port's population. */
  class BufferList {
    const headers: array<nat>
    const listEnd: int
    var size: nat
    var writePos: nat
    var readPos: int
    ghost var queue: seq<nat>

    /** Once an entry was set, the write position is the read position moved by the size, around the end. */
    ghost predicate Valid()
      reads this, headers
    {
      && listEnd + 1 == headers.Length > 0
      && size == |queue|
      && (if readPos == -1 then queue == [] && writePos == 0
          else readPos >= 0 && Holds(headers[..], readPos, queue) && writePos == Around(readPos, size, headers.Length))
    }

    constructor (count: nat)
      requires count > 0
      ensures Valid() && queue == [] && fresh(headers) && headers.Length == count
    {
      headers := new nat[count];
      listEnd := count - 1;
      size := 0;
      writePos := 0;
      readPos := -1;
      queue := [];
    }

    /** `ListSetEntry`: a full list takes nothing. */
    method SetEntry(h: nat)
      requires Valid()
      modifies this, headers
      ensures Valid() && size == |queue|
      ensures queue == if |old(queue)| < headers.Length then old(queue) + [h] else old(queue)
    {
      hide Holds;
      if size < listEnd + 1 {
        ghost var r := if readPos == -1 then 0 else readPos;
        if readPos == -1 { NothingHeld(headers[..]); }
        Added(headers[..], r, queue, h);
        ghost var hs := headers[..];
        size := size + 1;
        headers[writePos] := h;
        assert headers[..] == hs[writePos := h];
        writePos := writePos + 1;
        if readPos == -1 {
          readPos := 0;
        }
        if writePos > listEnd {
          writePos := 0;
        }
        queue := queue + [h];
      }
    }

    /** `ListGetEntry`: the oldest header, if there is one. */
    method GetEntry(none: nat) returns (h: nat)
      requires Valid()
      modifies this
      ensures Valid() && size == |queue|
      ensures if old(queue) == [] then h == none && queue == [] else h == old(queue)[0] && queue == old(queue)[1..]
    {
      hide Holds;
      h := none;
      if size > 0 {
        Dropped(headers[..], readPos, queue);
        size := size - 1;
        h := headers[readPos];
        readPos := readPos + 1;
        if readPos > listEnd {
          readPos := 0;
        }
        queue := queue[1..];
      }
    }

    /** `ListFlushEntries`: every header goes back, oldest first. */
    method FlushEntries() returns (out: seq<nat>)
      requires Valid()
      modifies this
      ensures Valid() && size == 0 && queue == [] && out == old(queue)
    {
      hide Holds;
      out := [];
      while size > 0
        invariant Valid() && old(queue) == out + queue
        decreases size
      {
        Dropped(headers[..], readPos, queue);
        size := size - 1;
        out := out + [headers[readPos]];
        readPos := readPos + 1;
        if readPos > listEnd {
          readPos := 0;
        }
        queue := queue[1..];
      }
    }
  }

  lemma NothingHeld(hs: seq<nat>)
    requires |hs| > 0
    ensures Holds(hs, 0, [])
  {
  }

  datatype CompState = StateInvalid | StateLoaded | StateIdle | StateExecuting | StatePause | StateWait

  /** `ready` says whether the population a transition waits for arrives before its timeout. */
  datatype Command =
    | SetState(target: CompState, ready: bool)
    | Flush(input: bool, output: bool)
    | StopPort(input: bool, output: bool)
    | RestartPort(input: bool, output: bool)
    | MarkBuf
    | FillBuf(header: nat)
    | EmptyBuf(header: nat)
    | Stop

  /** The state a command leads to. */
  function NextState(s: CompState, c: Command): CompState {
    if !c.SetState? || s == c.target then s
    else match c.target
      case StateInvalid => StateInvalid
      case StateLoaded => if (s == StateIdle || s == StateWait) && c.ready then StateLoaded else s
      case StateIdle => if s != StateInvalid && c.ready then StateIdle else s
      case StateExecuting => if s == StateIdle || s == StatePause then StateExecuting else s
      case StatePause => if s == StateIdle || s == StateExecuting then StatePause else s
      case StateWait => if s == StateLoaded then StateWait else s
  }

  /** The transitions that return all headers of both ports. */
  predicate Flushes(s: CompState, c: Command) {
    c.SetState? && s != c.target && ((c.target == StateIdle && (s == StatePause || s == StateExecuting))
                                     || (c.target == StateExecuting && s == StatePause))
  }

  /** The transitions of the OpenMAX standard between its states, but that every state may become invalid. */
  const TRANSITIONS := {
    (StateLoaded, StateIdle), (StateLoaded, StateWait), (StateWait, StateLoaded), (StateWait, StateIdle),
    (StateIdle, StateLoaded), (StateIdle, StateExecuting), (StateIdle, StatePause),
    (StateExecuting, StateIdle), (StateExecuting, StatePause), (StatePause, StateIdle), (StatePause, StateExecuting)
  }

  /** The component makes exactly these, those to Loaded and Idle only with the ports as they must be. */
  lemma TransitionsExactly(s: CompState, c: Command)
    ensures NextState(s, c) != s
            <==> && c.SetState? && s != c.target
                 && (c.target == StateInvalid
                     || ((s, c.target) in TRANSITIONS && (c.target == StateLoaded || c.target == StateIdle ==> c.ready)))
    ensures NextState(s, c) != s ==> NextState(s, c) == c.target
  {
  }

  /** An invalid component stays invalid, whatever it is told. */
  lemma {:induction false} InvalidStays(v: View, cs: seq<Command>, inputCap: nat, outputCap: nat)
    requires v.state == StateInvalid
    ensures AfterAll(v, cs, inputCap, outputCap).state == StateInvalid
    decreases |cs|
  {
    if cs != [] && !cs[0].Stop? {
      InvalidStays(AfterProcess(AfterCommand(v, cs[0], inputCap, outputCap)), cs[1..], inputCap, outputCap);
    }
  }

  /** What decides which headers are taken: the state, and how full the lists are. */
  datatype View = View(state: CompState, inputOn: bool, outputOn: bool, inputs: nat, outputs: nat)

  function Flushed(v: View, input: bool, output: bool): View {
    v.(inputs := if input then 0 else v.inputs, outputs := if output then 0 else v.outputs)
  }

  function AfterCommand(v: View, c: Command, inputCap: nat, outputCap: nat): View {
    match c
    case SetState(_, _) =>
      (if Flushes(v.state, c) then Flushed(v, true, true) else v).(state := NextState(v.state, c))
    case Flush(i, o) => Flushed(v, i, o)
    case StopPort(i, o) => Flushed(v, i, o).(inputOn := v.inputOn && !i, outputOn := v.outputOn && !o)
    case RestartPort(i, o) => v.(inputOn := v.inputOn || i, outputOn := v.outputOn || o)
    case FillBuf(_) => if v.outputs < outputCap then v.(outputs := v.outputs + 1) else v
    case EmptyBuf(_) => if v.inputs < inputCap then v.(inputs := v.inputs + 1) else v
    case MarkBuf => v
    case Stop => v
  }

  function AfterProcess(v: View): View {
    if v.state == StateExecuting && v.inputOn && v.outputOn && v.inputs > 0 && v.outputs > 0
    then v.(inputs := v.inputs - 1, outputs := v.outputs - 1) else v
  }

  /** The state after the commands up to the first stop. */
  function AfterAll(v: View, cs: seq<Command>, inputCap: nat, outputCap: nat): View
    decreases |cs|
  {
    if cs == [] || cs[0].Stop? then v
    else AfterAll(AfterProcess(AfterCommand(v, cs[0], inputCap, outputCap)), cs[1..], inputCap, outputCap)
  }

  /** The input headers of the commands that came while the list had room, in order. */
  function TakenIn(v: View, cs: seq<Command>, inputCap: nat, outputCap: nat): seq<nat>
    decreases |cs|
  {
    if cs == [] || cs[0].Stop? then []
    else
      (if cs[0].EmptyBuf? && v.inputs < inputCap then [cs[0].header] else [])
      + TakenIn(AfterProcess(AfterCommand(v, cs[0], inputCap, outputCap)), cs[1..], inputCap, outputCap)
  }

  function TakenOut(v: View, cs: seq<Command>, inputCap: nat, outputCap: nat): seq<nat>
    decreases |cs|
  {
    if cs == [] || cs[0].Stop? then []
    else
      (if cs[0].FillBuf? && v.outputs < outputCap then [cs[0].header] else [])
      + TakenOut(AfterProcess(AfterCommand(v, cs[0], inputCap, outputCap)), cs[1..], inputCap, outputCap)
  }

  class Component {
    const input: BufferList
    const output: BufferList
    var state: CompState
    var inputEnabled: bool
    var outputEnabled: bool
    var emptied: seq<nat>            // headers returned by EmptyBufferDone
    var filled: seq<nat>             // headers returned by FillBufferDone
    ghost var givenIn: seq<nat>      // headers the input list accepted
    ghost var givenOut: seq<nat>

    function Now(): View
      reads this, input, output
    {
      View(state, inputEnabled, outputEnabled, input.size, output.size)
    }

    /** Whatever was accepted was returned, in order, or is still queued behind. */
    ghost predicate Valid()
      reads this, input, output, input.headers, output.headers
    {
      && input != output && input.headers != output.headers
      && input.Valid() && output.Valid()
      && input.size == |input.queue| && output.size == |output.queue|
      && givenIn == emptied + input.queue
      && givenOut == filled + output.queue
    }

    constructor (inputs: nat, outputs: nat)
      requires inputs > 0 && outputs > 0
      ensures Valid() && fresh(input) && fresh(output) && fresh(input.headers) && fresh(output.headers)
      ensures givenIn == givenOut == [] && state == StateLoaded
    {
      input := new BufferList(inputs);
      output := new BufferList(outputs);
      state := StateLoaded;
      inputEnabled := true;
      outputEnabled := true;
      emptied := [];
      filled := [];
      givenIn := [];
      givenOut := [];
    }

    method FlushInput()
      requires Valid()
      modifies this`emptied, input
      ensures Valid() && input.queue == [] && emptied == old(emptied) + old(input.queue)
    {
      var out := input.FlushEntries();
      emptied := emptied + out;
    }

    method FlushOutput()
      requires Valid()
      modifies this`filled, output
      ensures Valid() && output.queue == [] && filled == old(filled) + old(output.queue)
    {
      var out := output.FlushEntries();
      filled := filled + out;
    }

    /** The state transition part of the loop. */
    method Transition(c: Command)
      requires Valid() && c.SetState?
      modifies this, input, output
      ensures Valid() && state == NextState(old(state), c) && givenIn == old(givenIn) && givenOut == old(givenOut)
      ensures inputEnabled == old(inputEnabled) && outputEnabled == old(outputEnabled)
      ensures old(emptied) <= emptied && old(filled) <= filled
      ensures Flushes(old(state), c) ==> input.queue == [] && output.queue == []
      ensures !Flushes(old(state), c) ==> input.queue == old(input.queue) && output.queue == old(output.queue)
      ensures if c.target in {StateIdle, StateExecuting} && old(state) in {StatePause, StateExecuting} && c.target != old(state)
              then input.queue == [] && output.queue == [] && emptied == givenIn && filled == givenOut
              else emptied == old(emptied) && filled == old(filled)
    {
      hide BufferList.Valid;
      if state == c.target { return; }
      match c.target
      case StateInvalid => state := StateInvalid;
      case StateLoaded =>
        if (state == StateIdle || state == StateWait) && c.ready { state := StateLoaded; }
      case StateIdle =>
        if state != StateInvalid {
          if state == StatePause || state == StateExecuting {
            FlushInput();
            FlushOutput();
          }
          if c.ready { state := StateIdle; }
        }
      case StateExecuting =>
        if state == StateIdle || state == StatePause {
          if state == StatePause {
            FlushInput();
            FlushOutput();
          }
          state := StateExecuting;
        }
      case StatePause =>
        if state == StateIdle || state == StateExecuting { state := StatePause; }
      case StateWait =>
        if state == StateLoaded { state := StateWait; }
    }

    /** The command part of the loop. */
    method Execute(c: Command)
      requires Valid() && !c.Stop?
      modifies this, input, output, input.headers, output.headers
      ensures Valid() && Now() == AfterCommand(old(Now()), c, input.headers.Length, output.headers.Length)
      ensures old(emptied) <= emptied && old(filled) <= filled
      ensures givenIn == if c.EmptyBuf? && |old(input.queue)| < input.headers.Length then old(givenIn) + [c.header] else old(givenIn)
      ensures givenOut == if c.FillBuf? && |old(output.queue)| < output.headers.Length then old(givenOut) + [c.header] else old(givenOut)
    {
      hide BufferList.Valid, NextState, Flushes;
      match c
      case SetState(_, _) => Transition(c);
      case Flush(_, _) => PortCommand(c);
      case StopPort(_, _) => PortCommand(c);
      case RestartPort(_, _) => PortCommand(c);
      case MarkBuf =>
      case FillBuf(h) => AcceptOutput(h);
      case EmptyBuf(h) => AcceptInput(h);
    }

    /** Flush, stop and restart, each for one port or both. */
    method PortCommand(c: Command)
      requires Valid() && (c.Flush? || c.StopPort? || c.RestartPort?)
      modifies this, input, output
      ensures Valid() && Now() == AfterCommand(old(Now()), c, input.headers.Length, output.headers.Length)
      ensures old(emptied) <= emptied && old(filled) <= filled
      ensures givenIn == old(givenIn) && givenOut == old(givenOut) && state == old(state)
      ensures if !c.RestartPort? && c.input then input.queue == [] && emptied == givenIn
              else input.queue == old(input.queue) && emptied == old(emptied)
      ensures if !c.RestartPort? && c.output then output.queue == [] && filled == givenOut
              else output.queue == old(output.queue) && filled == old(filled)
      ensures inputEnabled == if c.Flush? || !c.input then old(inputEnabled) else c.RestartPort?
      ensures outputEnabled == if c.Flush? || !c.output then old(outputEnabled) else c.RestartPort?
    {
      hide BufferList.Valid;
      match c
      case Flush(i, o) =>
        if i { FlushInput(); }
        if o { FlushOutput(); }
      case StopPort(i, o) =>
        if i { FlushInput(); inputEnabled := false; }
        if o { FlushOutput(); outputEnabled := false; }
      case RestartPort(i, o) =>
        if i { inputEnabled := true; }
        if o { outputEnabled := true; }
    }

    method AcceptInput(h: nat)
      requires Valid()
      modifies this`givenIn, input, input.headers
      ensures Valid()
      ensures givenIn == if |old(input.queue)| < input.headers.Length then old(givenIn) + [h] else old(givenIn)
    {
      hide BufferList.Valid;
      if |input.queue| < input.headers.Length { givenIn := givenIn + [h]; }
      input.SetEntry(h);
    }

    method AcceptOutput(h: nat)
      requires Valid()
      modifies this`givenOut, output, output.headers
      ensures Valid()
      ensures givenOut == if |old(output.queue)| < output.headers.Length then old(givenOut) + [h] else old(givenOut)
    {
      hide BufferList.Valid;
      if |output.queue| < output.headers.Length { givenOut := givenOut + [h]; }
      output.SetEntry(h);
    }

    predicate Processes()
      reads this, input, output
    {
      state == StateExecuting && inputEnabled && outputEnabled && input.size > 0 && output.size > 0
    }

    /** The buffer part: one input header and one output header, returned whether or not a frame came out. */
    method Process(decoded: bool)
      requires Valid()
      modifies this`emptied, this`filled, input, output
      ensures Valid() && givenIn == old(givenIn) && givenOut == old(givenOut)
      ensures Now() == AfterProcess(old(Now()))
      ensures old(Processes()) ==> old(input.queue) != [] && old(output.queue) != []
      ensures old(Processes()) ==> emptied == old(emptied) + [old(input.queue[0])] && input.queue == old(input.queue[1..])
      ensures old(Processes()) ==> filled == old(filled) + [old(output.queue[0])] && output.queue == old(output.queue[1..])
      ensures !old(Processes()) ==> emptied == old(emptied) && filled == old(filled)
    {
      hide BufferList.Valid;
      var none, holds := 0, false;
      var outHeader := none;
      if state == StateExecuting && inputEnabled && outputEnabled && input.size > 0 && (output.size > 0 || holds) {
        var inHeader := input.GetEntry(none);
        if !holds {
          outHeader := output.GetEntry(none);
          holds := true;
        }
        emptied := emptied + [inHeader];
        if decoded {
          filled := filled + [outHeader];
          holds := false;
        }
      }
      if holds {
        filled := filled + [outHeader];
      }
    }

    /** One turn of the loop. */
    method Turn(c: Command, decoded: bool)
      requires Valid() && !c.Stop?
      modifies this, input, output, input.headers, output.headers
      ensures Valid() && Now() == AfterProcess(AfterCommand(old(Now()), c, input.headers.Length, output.headers.Length))
      ensures old(emptied) <= emptied && old(filled) <= filled
      ensures givenIn == old(givenIn) + (if c.EmptyBuf? && old(Now()).inputs < input.headers.Length then [c.header] else [])
      ensures givenOut == old(givenOut) + (if c.FillBuf? && old(Now()).outputs < output.headers.Length then [c.header] else [])
    {
      hide AfterCommand, AfterProcess, BufferList.Valid;
      Execute(c);
      Process(decoded);
    }

    /**
     `ComponentThread`: whatever commands arrive, and whatever decodes, the headers
     taken on a port are those of the commands that found room, in order; each was
     returned, in order, or is still queued behind.
     */
    method ComponentThread(commands: seq<Command>, decoded: seq<bool>)
      requires Valid() && |decoded| == |commands|
      modifies this, input, output, input.headers, output.headers
      ensures Valid()
      ensures Now() == AfterAll(old(Now()), commands, input.headers.Length, output.headers.Length)
      ensures givenIn == old(givenIn) + TakenIn(old(Now()), commands, input.headers.Length, output.headers.Length)
      ensures givenOut == old(givenOut) + TakenOut(old(Now()), commands, input.headers.Length, output.headers.Length)
      ensures givenIn == emptied + input.queue && givenOut == filled + output.queue
      ensures old(emptied) <= emptied && old(filled) <= filled
    {
      hide AfterCommand, AfterProcess, BufferList.Valid, Now;
      ghost var v := Now();
      ghost var ci, co := input.headers.Length, output.headers.Length;
      ghost var rest, given, filling := commands, givenIn, givenOut;
      for i := 0 to |commands|
        invariant Valid() && rest == commands[i..]
        invariant AfterAll(Now(), rest, ci, co) == AfterAll(v, commands, ci, co)
        invariant givenIn + TakenIn(Now(), rest, ci, co) == given + TakenIn(v, commands, ci, co)
        invariant givenOut + TakenOut(Now(), rest, ci, co) == filling + TakenOut(v, commands, ci, co)
        invariant old(emptied) <= emptied && old(filled) <= filled
      {
        assert rest[0] == commands[i] && rest[1..] == commands[i + 1..];
        if commands[i].Stop? { return; }
        Turn(commands[i], decoded[i]);
        rest := rest[1..];
      }
    }
  }
}
