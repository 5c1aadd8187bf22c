/** The asynchronous log writer: a queue under a mutex, a thread that takes lines
    under the lock and writes them outside it, and a drain at shutdown. */
module AsyncLog {
  import opened MachineWords
  import opened Options

  type Line = string

  const FLUSH_EVERY: nat := 500

  /** What the writer object holds. `file` lists the lines handed to the file stream and
      `flushed` counts those covered by an explicit flush. */
  datatype Core = Core(queue: seq<Line>, running: bool, writeCount: uint64, file: seq<Line>, flushed: nat)

  function Pushed(c: Core, line: Line): Core {
    c.(queue := c.queue + [line])
  }

  function Taken(c: Core): Core
    requires c.queue != []
  {
    c.(queue := c.queue[1..])
  }

  function Written(c: Core, line: Line): Core {
    c.(file := c.file + [line])
  }

  function Counted(c: Core): Core {
    var n := Add64(c.writeCount, 1);
    c.(writeCount := n, flushed := if n % FLUSH_EVERY == 0 then |c.file| else c.flushed)
  }

  function Flushed(c: Core): Core {
    c.(flushed := |c.file|)
  }

  // ---- The object, one critical section or one unlocked stretch at a time ----

  class AsyncLogWriter {
    var queue: seq<Line>
    var running: bool
    var writeCount: uint64
    var file: seq<Line>
    var flushed: nat

    ghost function View(): Core
      reads this
    {
      Core(queue, running, writeCount, file, flushed)
    }

    /** The log file is opened for appending; `file` counts from there. */
    constructor ()
      ensures View() == Core([], true, 0, [], 0)
    {
      queue, running, writeCount, file, flushed := [], true, 0, [], 0;
    }

    /** `write`, under the lock. */
    method Write(line: Line)
      modifies this
      ensures View() == Pushed(old(View()), line)
    {
      queue := queue + [line];
    }

    /** What the writer thread does under the lock. */
    method Take() returns (line: Option<Line>)
      modifies this
      ensures old(queue) == [] ==> line == None && View() == old(View())
      ensures old(queue) != [] ==> line == Some(old(queue)[0]) && View() == Taken(old(View()))
    {
      if queue == [] {
        return None;
      }
      line := Some(queue[0]);
      queue := queue[1..];
    }

    /** What it does after releasing it. */
    method Emit(line: Line)
      modifies this
      ensures View() == Counted(Written(old(View()), line))
    {
      file := file + [line];
      writeCount := Add64(writeCount, 1);
      if writeCount % 500 == 0 {
        flushed := |file|;
      }
    }

    /** The drain at shutdown, under the lock throughout. */
    method Drain()
      modifies this
      ensures View() == old(View()).(queue := [], file := old(file) + old(queue), flushed := |old(file) + old(queue)|)
    {
      while queue != []
        invariant file + queue == old(file) + old(queue)
        invariant running == old(running) && writeCount == old(writeCount)
        decreases |queue|
      {
        file := file + [queue[0]];
        queue := queue[1..];
      }
      flushed := |file|;
    }
  }

  // ---- All interleavings ----

  /** Where the writer thread is. In Popping, Unlocking and Draining it holds the lock. */
  datatype WriterPc =
    | Testing
    | Locking
    | Popping
    | Unlocking(line: Line)
    | Writing(line: Line)
    | Counting
    | DrainLocking
    | Draining
    | Finished

  /** Where a thread that calls `write` is. In Holding and Queued it holds the lock. */
  datatype CallerPc = Idle | Waiting(line: Line) | Holding(line: Line) | Queued

  datatype Owner = Writer | Caller(i: nat)

  datatype State = State(
    core: Core,
    lock: Option<Owner>,
    writer: WriterPc,
    callers: seq<CallerPc>,
    // history
    submitted: seq<Line>,     // every line pushed, in lock order
    atStop: Option<nat>       // how many when the destructor cleared `running_`
  )

  datatype Action =
    | Call(i: nat, line: Line)
    | Acquire(i: nat)
    | Push(i: nat)
    | Release(i: nat)
    | Stop
    | WriterStep

  ghost predicate Init(s: State) {
    && s.core == Core([], true, 0, [], 0)
    && s.lock == None && s.writer == Testing && s.submitted == [] && s.atStop == None
    && forall i | 0 <= i < |s.callers| :: s.callers[i] == Idle
  }

  predicate Enabled(s: State, a: Action) {
    match a
    case Call(i, _) => i < |s.callers| && s.callers[i].Idle?
    case Acquire(i) => i < |s.callers| && s.callers[i].Waiting? && s.lock.None?
    case Push(i) => i < |s.callers| && s.callers[i].Holding?
    case Release(i) => i < |s.callers| && s.callers[i].Queued?
    case Stop => s.core.running
    case WriterStep => !s.writer.Finished? && (s.writer.Locking? || s.writer.DrainLocking? ==> s.lock.None?)
  }

  function Next(s: State, a: Action): State
    requires Enabled(s, a)
  {
    match a
    case Call(i, line) => s.(callers := s.callers[i := Waiting(line)])
    case Acquire(i) => s.(lock := Some(Caller(i)), callers := s.callers[i := Holding(s.callers[i].line)])
    case Push(i) =>
      s.(core := Pushed(s.core, s.callers[i].line), submitted := s.submitted + [s.callers[i].line],
         callers := s.callers[i := Queued])
    case Release(i) => s.(lock := None, callers := s.callers[i := Idle])
    case Stop => s.(core := s.core.(running := false), atStop := Some(|s.submitted|))
    case WriterStep =>
      match s.writer
      case Testing => s.(writer := if s.core.running then Locking else DrainLocking)
      case Locking => s.(lock := Some(Writer), writer := Popping)
      case Popping =>
        if s.core.queue == [] then s.(lock := None, writer := Testing)
        else s.(core := Taken(s.core), writer := Unlocking(s.core.queue[0]))
      case Unlocking(line) => s.(lock := None, writer := Writing(line))
      case Writing(line) => s.(core := Written(s.core, line), writer := Counting)
      case Counting => s.(core := Counted(s.core), writer := Testing)
      case DrainLocking => s.(lock := Some(Writer), writer := Draining)
      case Draining =>
        if s.core.queue == [] then s.(core := Flushed(s.core), lock := None, writer := Finished)
        else s.(core := Written(Taken(s.core), s.core.queue[0]))
      case Finished => s
  }

  function Exec(s: State, acts: seq<Action>): Option<State>
    decreases |acts|
  {
    if acts == [] then Some(s)
    else if Enabled(s, acts[0]) then Exec(Next(s, acts[0]), acts[1..])
    else None
  }

  // ---- What every run keeps ----

  /** The line the writer thread has taken and not yet written. */
  function Hand(w: WriterPc): seq<Line> {
    match w
    case Unlocking(line) => [line]
    case Writing(line) => [line]
    case _ => []
  }

  ghost predicate Conserved(s: State) {
    s.core.file + Hand(s.writer) + s.core.queue == s.submitted
  }

  predicate WriterHolds(w: WriterPc) {
    w.Popping? || w.Unlocking? || w.Draining?
  }

  predicate CallerHolds(c: CallerPc) {
    c.Holding? || c.Queued?
  }

  ghost predicate Exclusive(s: State) {
    && (WriterHolds(s.writer) <==> s.lock == Some(Writer))
    && (forall i | 0 <= i < |s.callers| :: CallerHolds(s.callers[i]) <==> s.lock == Some(Caller(i)))
  }

  /** Lines written by the main loop since the last flush, against the counter. */
  ghost predicate FlushCount(s: State) {
    && s.core.flushed <= |s.core.file|
    && (!s.writer.Draining? && !s.writer.Finished? ==>
          |s.core.file| - s.core.flushed ==
          s.core.writeCount % FLUSH_EVERY + if s.writer.Counting? then 1 else 0)
  }

  ghost predicate StopSeen(s: State) {
    && (s.atStop.None? <==> s.core.running)
    && (s.atStop.Some? ==> s.atStop.value <= |s.submitted|)
    && (s.writer.DrainLocking? || s.writer.Draining? || s.writer.Finished? ==> !s.core.running)
    && (s.writer.Finished? ==> s.atStop.value <= |s.core.file| == s.core.flushed)
  }

  ghost predicate Inv(s: State) {
    Conserved(s) && Exclusive(s) && FlushCount(s) && StopSeen(s)
  }

  lemma CallerStepKeepsInv(s: State, a: Action)
    requires Inv(s) && Enabled(s, a) && !a.WriterStep?
    ensures Inv(Next(s, a))
  {}

  lemma WriterStepConserves(s: State)
    requires Conserved(s) && Enabled(s, WriterStep)
    ensures Conserved(Next(s, WriterStep))
  {}

  lemma WriterStepKeepsInv(s: State)
    requires Inv(s) && Enabled(s, WriterStep)
    ensures Inv(Next(s, WriterStep))
  {
    WriterStepConserves(s);
    assert s.writer.Draining? && s.core.queue == [] ==> |s.submitted| == |s.core.file|;
    hide Conserved;
  }

  lemma {:induction false} RunKeepsInv(s: State, acts: seq<Action>, s': State)
    requires Inv(s) && Exec(s, acts) == Some(s')
    ensures Inv(s')
    decreases |acts|
  {
    if acts == [] {
    } else {
      if acts[0].WriterStep? {
        WriterStepKeepsInv(s);
      } else {
        CallerStepKeepsInv(s, acts[0]);
      }
      RunKeepsInv(Next(s, acts[0]), acts[1..], s');
    }
  }

  /** After any run: the file, the line in the writer's hand and the queue are together all
      submitted lines in lock order; at the loop head at most 499 lines are unflushed, as the
      counter says, however often it wrapped; and once the writer has finished, every line
      submitted before the destructor began is in the file, all of it flushed. If nothing was
      submitted later, the file is all that was submitted and the queue is empty. */
  lemma EveryLineIsWritten(s: State, acts: seq<Action>, s': State)
    requires Init(s) && Exec(s, acts) == Some(s')
    ensures s'.core.file + Hand(s'.writer) + s'.core.queue == s'.submitted
    ensures s'.writer.Testing? ==>
              |s'.core.file| - s'.core.flushed == s'.core.writeCount % 500 < 500
    ensures s'.writer.Finished? ==>
              && s'.atStop.Some? && s'.atStop.value <= |s'.submitted|
              && s'.submitted[..s'.atStop.value] <= s'.core.file
              && s'.core.flushed == |s'.core.file|
              && (|s'.submitted| == s'.atStop.value ==> s'.core.file == s'.submitted && s'.core.queue == [])
  {
    assert Inv(s);
    RunKeepsInv(s, acts, s');
    if s'.writer.Finished? {
      var n, c := s'.atStop.value, s'.core;
      assert c.file + c.queue == s'.submitted by {
        assert c.file + [] == c.file;
      }
      assert s'.submitted[..n] == c.file[..n];
    }
  }

  function WriterSteps(acts: seq<Action>): nat {
    if acts == [] then 0 else (if acts[0].WriterStep? then 1 else 0) + WriterSteps(acts[1..])
  }

  /** The drain ends: whatever other threads do meanwhile, each step of the writer shortens
      the queue by one line, and the step after the last one finishes. */
  lemma {:induction false} DrainTerminates(s: State, acts: seq<Action>, s': State)
    requires Inv(s) && s.writer.Draining? && Exec(s, acts) == Some(s')
    ensures if WriterSteps(acts) <= |s.core.queue|
            then s'.writer.Draining? && |s'.core.queue| == |s.core.queue| - WriterSteps(acts)
            else s'.writer.Finished?
    decreases |acts|
  {
    if acts == [] {
    } else {
      var s1 := Next(s, acts[0]);
      if acts[0].WriterStep? {
        WriterStepKeepsInv(s);
        if s.core.queue == [] {
          FinishedStays(s1, acts[1..], s');
        } else {
          DrainTerminates(s1, acts[1..], s');
        }
      } else {
        CallerStepKeepsInv(s, acts[0]);
        DrainTerminates(s1, acts[1..], s');
      }
    }
  }

  lemma {:induction false} FinishedStays(s: State, acts: seq<Action>, s': State)
    requires s.writer.Finished? && Exec(s, acts) == Some(s')
    ensures s'.writer.Finished? && WriterSteps(acts) == 0
    decreases |acts|
  {
    if acts == [] {
    } else {
      FinishedStays(Next(s, acts[0]), acts[1..], s');
    }
  }

  /** How many of its own steps the writer is away from the drain, once it has been stopped. */
  function StepsToDrain(w: WriterPc): nat {
    match w
    case Locking => 7
    case Popping => 6
    case Unlocking(_) => 5
    case Writing(_) => 4
    case Counting => 3
    case Testing => 2
    case DrainLocking => 1
    case _ => 0
  }

  /** Shutdown gets through: after the destructor has stopped it, the writer is in the drain, or
      done with it, within seven of its steps, whatever other threads do meanwhile. */
  lemma {:induction false} StopLeadsToDrain(s: State, acts: seq<Action>, s': State)
    requires !s.core.running && Exec(s, acts) == Some(s')
    ensures !s'.core.running
    ensures StepsToDrain(s'.writer) + WriterSteps(acts) <= StepsToDrain(s.writer)
            || s'.writer.Draining? || s'.writer.Finished?
    ensures WriterSteps(acts) >= 7 ==> s'.writer.Draining? || s'.writer.Finished?
    decreases |acts|
  {
    if acts == [] {
    } else {
      StopLeadsToDrain(Next(s, acts[0]), acts[1..], s');
    }
  }
}
