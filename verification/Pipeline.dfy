/**
 The two double-buffered queues between libtego's backend and the user interface, as a
 state machine over the atomic steps of its threads: producers, the callback worker, the UI timer.
 */
module Pipeline {
  import opened Sequences

  type Kind = nat

  /** An emitted event. Its callback pushes exactly one UI task, unless it throws before that. */
  datatype Event = Event(kind: Kind, id: nat, throws: bool)

  datatype Task = Task(kind: Kind, id: nat)

  /** A run_once_task: its closure, and whether its exec and callable pointers are set. */
  datatype Cell = Cell(task: Task, exec: bool, callable: bool)
  {
    /** What the move assignment asserts of its target, and the destructor of its object. */
    predicate IsNull() {
      !exec && !callable
    }

    predicate IsLive() {
      exec && callable
    }
  }

  function Made(task: Task): Cell {
    Cell(task, true, true)
  }

  /** A default-constructed object, the target of every move construction. */
  const BLANK := Cell(Task(0, 0), false, false)

  /** The target and the source after a move. */
  function MoveAssign(target: Cell, source: Cell): (Cell, Cell) {
    (Cell(source.task, source.exec, source.callable), Cell(target.task, false, false))
  }

  /** A task that throws is caught by the caller and never reaches the end that nulls its pointers. */
  function Called(cell: Cell, fails: bool): Cell {
    if fails then cell else cell.(exec := false, callable := false)
  }

  function Relocated(cells: seq<Cell>): seq<Cell> {
    seq(|cells|, i requires 0 <= i < |cells| => MoveAssign(BLANK, cells[i]).0)
  }

  /** push_task: a temporary object is moved to the end of the vector, whose other objects may have to be moved first. */
  function PushTask(cells: seq<Cell>, task: Task): seq<Cell> {
    Relocated(cells) + [MoveAssign(BLANK, Made(task)).0]
  }

  /** The assertions on the way: the targets of the moves, and the destructors of everything moved from. */
  predicate PushAsserts(cells: seq<Cell>, task: Task) {
    BLANK.IsNull() && MoveAssign(BLANK, Made(task)).1.IsNull()
    && forall c | c in cells :: MoveAssign(BLANK, c).1.IsNull()
  }

  lemma {:induction false} PushTaskIs(cells: seq<Cell>, task: Task)
    ensures PushTask(cells, task) == cells + [Made(task)] && PushAsserts(cells, task)
  {
    assert Relocated(cells) == cells;
  }

  /** Where the callback worker stands: at the loop test, before the swap, in the batch, or gone. */
  datatype WorkerPc = AtTest | AtSwap | InBatch | Exited

  datatype State = State(
    registered: set<Kind>,
    terminating: bool,
    ready: multiset<Event>,     // producers that saw the flag unset but have not pushed yet
    pending: seq<Event>,        // pending_callbacks_
    pc: WorkerPc,
    local: seq<Event>,          // the worker's local_queue
    next: nat,                  // the next callback of the batch
    taskQueue: seq<Cell>,
    uiRunning: bool,
    uiLocal: seq<Cell>,         // localTaskQueue
    uiNext: nat,
    pushed: seq<Event>,         // every event ever pushed, in order
    invoked: seq<Event>,        // every callback ever invoked, in order
    ran: seq<Task>              // every UI task ever run, in order
  )

  const INITIAL := State({}, false, multiset{}, [], AtTest, [], 0, [], false, [], 0, [], [], [])

  datatype Step =
    | Register(kind: Kind)
    | Emit(event: Event)
    | Push(event: Event)
    | Terminate
    | WorkerTest
    | WorkerSwap
    | WorkerInvoke
    | WorkerClear
    | UiSwap
    | UiRun(fails: bool)
    | UiClear
    | Idle
  {
    predicate IsWorker() {
      WorkerTest? || WorkerSwap? || WorkerInvoke? || WorkerClear?
    }
  }

  predicate Enabled(s: State, step: Step) {
    match step
    case Push(e) => e in s.ready
    case WorkerTest => s.pc == AtTest
    case WorkerSwap => s.pc == AtSwap
    case WorkerInvoke => s.pc == InBatch && s.next < |s.local|
    case WorkerClear => s.pc == InBatch && s.next >= |s.local|
    case UiSwap => !s.uiRunning
    case UiRun(_) => s.uiRunning && s.uiNext < |s.uiLocal|
    case UiClear => s.uiRunning && s.uiNext >= |s.uiLocal|
    case _ => true
  }

  /** The UI tasks that the callbacks of some events push. */
  function Tasks(events: seq<Event>): seq<Task> {
    if events == [] then []
    else (if events[0].throws then [] else [Task(events[0].kind, events[0].id)]) + Tasks(events[1..])
  }

  function Live(tasks: seq<Task>): (cells: seq<Cell>)
    ensures |cells| == |tasks|
    ensures forall i | 0 <= i < |cells| :: cells[i] == Made(tasks[i])
  {
    seq(|tasks|, i requires 0 <= i < |tasks| => Made(tasks[i]))
  }

  function Payload(cells: seq<Cell>): (tasks: seq<Task>)
    ensures |tasks| == |cells|
    ensures forall i | 0 <= i < |tasks| :: tasks[i] == cells[i].task
  {
    seq(|cells|, i requires 0 <= i < |cells| => cells[i].task)
  }

  function Next(s: State, step: Step): State
    requires Enabled(s, step)
  {
    match step
    case Register(kind) => s.(registered := s.registered + {kind})
    case Emit(e) =>
      if e.kind in s.registered && !s.terminating then s.(ready := s.ready + multiset{e}) else s
    case Push(e) =>
      s.(ready := s.ready - multiset{e}, pending := s.pending + [e], pushed := s.pushed + [e])
    case Terminate => s.(terminating := true)
    case WorkerTest => s.(pc := if s.terminating then Exited else AtSwap)
    case WorkerSwap => s.(local := s.pending, pending := s.local, next := 0, pc := InBatch)
    case WorkerInvoke =>
      var e := s.local[s.next];
      s.(next := s.next + 1, invoked := s.invoked + [e],
         taskQueue := if e.throws then s.taskQueue else PushTask(s.taskQueue, Task(e.kind, e.id)))
    case WorkerClear => s.(local := [], next := 0, pc := AtTest)
    case UiSwap => s.(uiLocal := s.taskQueue, taskQueue := s.uiLocal, uiNext := 0, uiRunning := true)
    case UiRun(fails) =>
      var cell := s.uiLocal[s.uiNext];
      s.(uiLocal := s.uiLocal[s.uiNext := Called(cell, fails)], uiNext := s.uiNext + 1, ran := s.ran + [cell.task])
    case UiClear => s.(uiLocal := [], uiNext := 0, uiRunning := false)
    case Idle => s
  }

  predicate Legal(s: State, steps: seq<Step>)
    decreases steps
  {
    steps == [] || (Enabled(s, steps[0]) && Legal(Next(s, steps[0]), steps[1..]))
  }

  function Run(s: State, steps: seq<Step>): State
    requires Legal(s, steps)
    decreases steps
  {
    if steps == [] then s else Run(Next(s, steps[0]), steps[1..])
  }

  // ---- order and exactly-once ----

  /** What is still on its way to the UI, front first. */
  function InFlight(s: State): seq<Task>
    requires s.next <= |s.local| && s.uiNext <= |s.uiLocal|
  {
    Payload(s.uiLocal[s.uiNext..]) + Payload(s.taskQueue) + Tasks(s.local[s.next..]) + Tasks(s.pending)
  }

  ghost predicate Inv(s: State) {
    && s.next <= |s.local| && s.uiNext <= |s.uiLocal|
    && (s.pc != InBatch ==> s.local == [] && s.next == 0)
    && (!s.uiRunning ==> s.uiLocal == [] && s.uiNext == 0)
    && (forall c | c in s.taskQueue :: c.IsLive())
    && (forall i | s.uiNext <= i < |s.uiLocal| :: s.uiLocal[i].IsLive())
    && s.invoked + s.local[s.next..] + s.pending == s.pushed
    && s.ran + InFlight(s) == Tasks(s.pushed)
  }

  lemma {:induction false} TasksConcat(a: seq<Event>, b: seq<Event>)
    ensures Tasks(a + b) == Tasks(a) + Tasks(b)
  {
    if a == [] {
      AppendNothing(b);
    } else {
      assert (a + b)[0] == a[0] && (a + b)[1..] == a[1..] + b;
      TasksConcat(a[1..], b);
    }
  }

  lemma {:induction false} TasksOneEach(events: seq<Event>)
    requires forall e | e in events :: !e.throws
    ensures |Tasks(events)| == |events|
    ensures forall i | 0 <= i < |events| :: Tasks(events)[i] == Task(events[i].kind, events[i].id)
  {
    if events != [] {
      TasksOneEach(events[1..]);
    }
  }

  /** A push puts the event's task at the back of what is in flight. */
  lemma PushEffect(s: State, e: Event)
    requires Inv(s) && Enabled(s, Push(e))
    ensures InFlight(Next(s, Push(e))) == InFlight(s) + Tasks([e])
  {
    TasksConcat(s.pending, [e]);
  }

  /** Swapping the worker's buffers moves nothing: the local one is empty. */
  lemma WorkerSwapEffect(s: State)
    requires Inv(s) && Enabled(s, WorkerSwap)
    ensures var t := Next(s, WorkerSwap);
            InFlight(t) == InFlight(s) && t.local[t.next..] == s.pending && t.pending == s.local[s.next..] == []
  {
    var t := Next(s, WorkerSwap);
    assert t.local[0..] == s.pending && s.local[s.next..] == [];
  }

  lemma {:induction false} PushPayload(cells: seq<Cell>, e: Event)
    ensures Payload(if e.throws then cells else PushTask(cells, Task(e.kind, e.id))) == Payload(cells) + Tasks([e])
  {
    PushTaskIs(cells, Task(e.kind, e.id));
    AppendNothing(Payload(cells));
    assert [e][1..] == [];
    assert !e.throws ==> Tasks([e]) == [Task(e.kind, e.id)];
  }

  lemma Regroup(a: seq<Task>, b: seq<Task>, c: seq<Task>, d: seq<Task>)
    ensures a + b + (c + d) == a + (b + c) + d
  {
    Assoc(a, b, c);
    Assoc(a + b, c, d);
  }

  lemma {:induction false} OneTaskMoves(front: seq<Task>, cells: seq<Cell>, e: Event, rest: seq<Event>)
    ensures front + Payload(cells) + Tasks([e] + rest)
            == front + Payload(if e.throws then cells else PushTask(cells, Task(e.kind, e.id))) + Tasks(rest)
  {
    TasksConcat([e], rest);
    PushPayload(cells, e);
    Regroup(front, Payload(cells), Tasks([e]), Tasks(rest));
  }

  lemma {:induction false} NextInBatch(batch: seq<Event>, next: nat)
    requires next < |batch|
    ensures batch[next..] == [batch[next]] + batch[next + 1..]
  {
  }

  /** Invoking a callback moves its task from the batch to the task queue. */
  lemma {:induction false} WorkerInvokeEffect(s: State)
    requires s.uiNext <= |s.uiLocal| && Enabled(s, WorkerInvoke)
    ensures var t := Next(s, WorkerInvoke);
            InFlight(t) == InFlight(s) && s.local[s.next..] == [s.local[s.next]] + t.local[t.next..]
  {
    NextInBatch(s.local, s.next);
    OneTaskMoves(Payload(s.uiLocal[s.uiNext..]), s.taskQueue, s.local[s.next], s.local[s.next + 1..]);
  }

  lemma WorkerClearEffect(s: State)
    requires Inv(s) && Enabled(s, WorkerClear)
    ensures var t := Next(s, WorkerClear);
            InFlight(t) == InFlight(s) && t.local[t.next..] == s.local[s.next..] == []
  {
  }

  lemma UiSwapEffect(s: State)
    requires Inv(s) && Enabled(s, UiSwap)
    ensures InFlight(Next(s, UiSwap)) == InFlight(s)
  {
    var t := Next(s, UiSwap);
    assert t.uiLocal[0..] == s.taskQueue && s.uiLocal[s.uiNext..] == [] && s.uiLocal == [];
    AppendNothing(Payload(s.taskQueue));
  }

  /** Running a UI task delivers the front of what is in flight. */
  lemma UiRunEffect(s: State, fails: bool)
    requires Inv(s) && Enabled(s, UiRun(fails))
    ensures InFlight(s) == [s.uiLocal[s.uiNext].task] + InFlight(Next(s, UiRun(fails)))
  {
    var t := Next(s, UiRun(fails));
    assert Payload(s.uiLocal[s.uiNext..]) == [s.uiLocal[s.uiNext].task] + Payload(t.uiLocal[t.uiNext..]);
  }

  lemma UiClearEffect(s: State)
    requires Inv(s) && Enabled(s, UiClear)
    ensures InFlight(Next(s, UiClear)) == InFlight(s)
  {
  }

  lemma {:induction false} PushKeepsInv(s: State, e: Event)
    requires Inv(s) && Enabled(s, Push(e))
    ensures Inv(Next(s, Push(e)))
  {
    PushEffect(s, e);
    TasksConcat(s.pushed, [e]);
    Assoc(s.ran, InFlight(s), Tasks([e]));
    Assoc(s.invoked + s.local[s.next..], s.pending, [e]);
  }

  lemma {:induction false} WorkerInvokeKeepsInv(s: State)
    requires Inv(s) && Enabled(s, WorkerInvoke)
    ensures Inv(Next(s, WorkerInvoke))
  {
    var e, t := s.local[s.next], Next(s, WorkerInvoke);
    PushTaskIs(s.taskQueue, Task(e.kind, e.id));
    WorkerInvokeEffect(s);
    Assoc(s.invoked, [e], t.local[t.next..]);
  }

  lemma {:induction false} UiRunKeepsInv(s: State, fails: bool)
    requires Inv(s) && Enabled(s, UiRun(fails))
    ensures Inv(Next(s, UiRun(fails)))
  {
    UiRunEffect(s, fails);
    Assoc(s.ran, [s.uiLocal[s.uiNext].task], InFlight(Next(s, UiRun(fails))));
  }

  lemma {:induction false} StepKeepsInv(s: State, step: Step)
    requires Inv(s) && Enabled(s, step)
    ensures Inv(Next(s, step))
  {
    match step {
      case Push(e) => PushKeepsInv(s, e);
      case WorkerSwap => WorkerSwapEffect(s);
      case WorkerInvoke => WorkerInvokeKeepsInv(s);
      case WorkerClear => WorkerClearEffect(s);
      case UiSwap => UiSwapEffect(s);
      case UiRun(fails) => UiRunKeepsInv(s, fails);
      case UiClear => UiClearEffect(s);
      case _ =>
    }
  }

  lemma {:induction false} RunKeepsInv(s: State, steps: seq<Step>)
    requires Inv(s) && Legal(s, steps)
    ensures Inv(Run(s, steps))
    decreases steps
  {
    if steps != [] {
      StepKeepsInv(s, steps[0]);
      RunKeepsInv(Next(s, steps[0]), steps[1..]);
    }
  }

  /**
   In every interleaving, what the UI has run followed by what is still under way
   is exactly one task for each non-throwing event, in the order of emission.
   */
  lemma OrderAndExactlyOnce(steps: seq<Step>)
    requires Legal(INITIAL, steps)
    ensures var s := Run(INITIAL, steps);
            && Inv(s)
            && s.ran + InFlight(s) == Tasks(s.pushed)
            && ((forall e | e in s.pushed :: !e.throws) ==>
                  && |s.ran| <= |s.pushed|
                  && forall i | 0 <= i < |s.ran| :: s.ran[i] == Task(s.pushed[i].kind, s.pushed[i].id))
  {
    RunKeepsInv(INITIAL, steps);
    var s := Run(INITIAL, steps);
    if forall e | e in s.pushed :: !e.throws {
      TasksOneEach(s.pushed);
      forall i | 0 <= i < |s.ran|
        ensures s.ran[i] == Task(s.pushed[i].kind, s.pushed[i].id)
      {
        assert s.ran[i] == (s.ran + InFlight(s))[i];
      }
    }
  }

  // ---- the two double buffers refine one FIFO queue ----

  datatype Fifo = Fifo(queue: seq<Task>, delivered: seq<Task>)

  function Abstract(s: State): Fifo
    requires s.next <= |s.local| && s.uiNext <= |s.uiLocal|
  {
    Fifo(InFlight(s), s.ran)
  }

  predicate FifoStep(f: Fifo, g: Fifo) {
    || f == g
    || (exists t | t in g.queue :: g == f.(queue := f.queue + [t]))
    || (f.queue != [] && g == Fifo(f.queue[1..], f.delivered + [f.queue[0]]))
  }

  /** Only a push and a UI task are visible: the one adds at the back, the other takes from the front. */
  lemma VisibleEffect(s: State, step: Step)
    requires Inv(s) && Enabled(s, step)
    ensures step.UiRun? ==>
              InFlight(s) != [] && Abstract(Next(s, step)) == Fifo(InFlight(s)[1..], s.ran + [InFlight(s)[0]])
    ensures step.Push? ==> Abstract(Next(s, step)) == Fifo(InFlight(s) + Tasks([step.event]), s.ran)
    ensures !step.UiRun? && !step.Push? ==> Abstract(Next(s, step)) == Abstract(s)
  {
    match step {
      case Push(e) => PushEffect(s, e);
      case WorkerSwap => WorkerSwapEffect(s);
      case WorkerInvoke => WorkerInvokeEffect(s);
      case WorkerClear => WorkerClearEffect(s);
      case UiSwap => UiSwapEffect(s);
      case UiRun(fails) => UiRunEffect(s, fails);
      case UiClear => UiClearEffect(s);
      case _ =>
    }
  }

  /** Every concrete step is an enqueue, a delivery of the oldest task, or invisible. */
  lemma RefinesFifo(s: State, step: Step)
    requires Inv(s) && Enabled(s, step)
    ensures Inv(Next(s, step))
    ensures FifoStep(Abstract(s), Abstract(Next(s, step)))
  {
    StepKeepsInv(s, step);
    VisibleEffect(s, step);
    if step.Push? {
      EnqueueIsFifoStep(Abstract(s), step.event);
    }
  }

  lemma EnqueueIsFifoStep(f: Fifo, e: Event)
    ensures FifoStep(f, f.(queue := f.queue + Tasks([e])))
  {
    if e.throws {
      assert f.queue + Tasks([e]) == f.queue;
    } else {
      var t := Task(e.kind, e.id);
      assert Tasks([e]) == [t];
      assert (f.queue + [t])[|f.queue|] == t;
    }
  }

  /** Over any run from the start, what was delivered is a prefix of what was enqueued: nothing overtakes. */
  lemma {:induction false} DeliveredInOrder(s: State, steps: seq<Step>)
    requires Inv(s) && Legal(s, steps)
    ensures Inv(Run(s, steps)) && s.ran <= Run(s, steps).ran
    ensures s.ran + InFlight(s) <= Run(s, steps).ran + InFlight(Run(s, steps))
    decreases steps
  {
    if steps != [] {
      var t := Next(s, steps[0]);
      StepKeepsInv(s, steps[0]);
      VisibleEffect(s, steps[0]);
      DeliveredInOrder(t, steps[1..]);
      if steps[0].UiRun? {
        assert t.ran + InFlight(t) == s.ran + InFlight(s);
      } else if steps[0].Push? {
        Assoc(s.ran, InFlight(s), Tasks([steps[0].event]));
      }
    }
  }

  /** Whether each task of the UI's current batch threw, after one more step. */
  function ThrewStep(flags: seq<bool>, step: Step): seq<bool> {
    match step
    case UiRun(fails) => flags + [fails]
    case UiSwap => []
    case UiClear => []
    case _ => flags
  }

  function Threw(flags: seq<bool>, steps: seq<Step>): seq<bool>
    decreases steps
  {
    if steps == [] then flags else Threw(ThrewStep(flags, steps[0]), steps[1..])
  }

  /** The task objects that had their turn are live if they threw and null if they did not; all others are live. */
  ghost predicate LiveFlags(s: State, flags: seq<bool>) {
    && |flags| == s.uiNext <= |s.uiLocal| && (!s.uiRunning ==> s.uiLocal == [])
    && (forall c | c in s.taskQueue :: c.IsLive())
    && (forall i | 0 <= i < s.uiNext :: if flags[i] then s.uiLocal[i].IsLive() else s.uiLocal[i].IsNull())
    && (forall i | s.uiNext <= i < |s.uiLocal| :: s.uiLocal[i].IsLive())
  }

  lemma {:induction false} LiveStep(s: State, step: Step, flags: seq<bool>)
    requires LiveFlags(s, flags) && Enabled(s, step)
    ensures LiveFlags(Next(s, step), ThrewStep(flags, step))
  {
    if step.WorkerInvoke? {
      var e := s.local[s.next];
      PushTaskIs(s.taskQueue, Task(e.kind, e.id));
    }
  }

  /** The assertions that a step evaluates: a push moves objects, and clearing a batch destroys it. */
  predicate Asserts(s: State, step: Step)
    requires Enabled(s, step)
  {
    match step
    case WorkerInvoke =>
      var e := s.local[s.next];
      e.throws || PushAsserts(s.taskQueue, Task(e.kind, e.id))
    case UiClear => forall c | c in s.uiLocal :: c.IsNull()
    case _ => true
  }

  predicate AllAssert(s: State, steps: seq<Step>)
    requires Legal(s, steps)
    decreases |steps|
  {
    steps == [] || (Asserts(s, steps[0]) && AllAssert(Next(s, steps[0]), steps[1..]))
  }

  /** Some batch is cleared in which a task has thrown. */
  predicate ClearsThrown(flags: seq<bool>, steps: seq<Step>)
    decreases |steps|
  {
    steps != [] && ((steps[0].UiClear? && true in flags) || ClearsThrown(ThrewStep(flags, steps[0]), steps[1..]))
  }

  lemma {:induction false} AssertsExact(s: State, step: Step, flags: seq<bool>)
    requires LiveFlags(s, flags) && Enabled(s, step)
    ensures Asserts(s, step) <==> !(step.UiClear? && true in flags)
  {
    if step.WorkerInvoke? {
      var e := s.local[s.next];
      PushTaskIs(s.taskQueue, Task(e.kind, e.id));
    } else if step.UiClear? && true in flags {
      var i :| 0 <= i < |flags| && flags[i];
      assert s.uiLocal[i] in s.uiLocal;
    }
  }

  /**
   The assertions of the task objects hold at every step of a run if and only if no batch is cleared in which a task
   has thrown.
   */
  lemma {:induction false} LiveIffThrew(s: State, steps: seq<Step>, flags: seq<bool>)
    requires LiveFlags(s, flags) && Legal(s, steps)
    ensures AllAssert(s, steps) <==> !ClearsThrown(flags, steps)
    decreases |steps|
  {
    if steps != [] {
      AssertsExact(s, steps[0], flags);
      LiveStep(s, steps[0], flags);
      LiveIffThrew(Next(s, steps[0]), steps[1..], ThrewStep(flags, steps[0]));
    }
  }

  lemma {:induction false} AssertionsExact(steps: seq<Step>)
    requires Legal(INITIAL, steps)
    ensures AllAssert(INITIAL, steps) <==> !ClearsThrown([], steps)
  {
    LiveIffThrew(INITIAL, steps, []);
  }

  lemma {:induction false} LegalMore(s: State, steps: seq<Step>, step: Step)
    requires Legal(s, steps) && Enabled(Run(s, steps), step)
    ensures Legal(s, steps + [step]) && Run(s, steps + [step]) == Next(Run(s, steps), step)
    decreases |steps|
  {
    if steps == [] {
      assert steps + [step] == [step] && [step][1..] == [];
    } else {
      LegalMore(Next(s, steps[0]), steps[1..], step);
      assert (steps + [step])[0] == steps[0] && (steps + [step])[1..] == steps[1..] + [step];
    }
  }

  lemma {:induction false} ClearsThrownAtEnd(flags: seq<bool>, steps: seq<Step>)
    ensures true in Threw(flags, steps) ==> ClearsThrown(flags, steps + [UiClear])
    decreases |steps|
  {
    if steps == [] {
      assert steps + [UiClear] == [UiClear];
    } else {
      ClearsThrownAtEnd(ThrewStep(flags, steps[0]), steps[1..]);
      assert (steps + [UiClear])[0] == steps[0] && (steps + [UiClear])[1..] == steps[1..] + [UiClear];
    }
  }

  lemma {:induction false} ThrewMore(flags: seq<bool>, steps: seq<Step>, step: Step)
    ensures Threw(flags, steps + [step]) == ThrewStep(Threw(flags, steps), step)
    decreases |steps|
  {
    if steps == [] {
      assert steps + [step] == [step] && [step][1..] == [];
    } else {
      ThrewMore(ThrewStep(flags, steps[0]), steps[1..], step);
      assert (steps + [step])[0] == steps[0] && (steps + [step])[1..] == steps[1..] + [step];
    }
  }

  /** One event whose task throws: clearing the batch destroys a live task object. */
  lemma {:induction false} ThrowingTaskHappens() returns (steps: seq<Step>)
    ensures Legal(INITIAL, steps) && !AllAssert(INITIAL, steps)
  {
    var e := Event(0, 0, false);
    steps := OneTaskQueued(e);
    LegalMore(INITIAL, steps, UiSwap);
    ThrewMore([], steps, UiSwap);
    steps := steps + [UiSwap];
    PushTaskIs([], Task(0, 0));
    LegalMore(INITIAL, steps, UiRun(true));
    ThrewMore([], steps, UiRun(true));
    steps := steps + [UiRun(true)];
    LegalMore(INITIAL, steps, UiClear);
    ClearsThrownAtEnd([], steps);
    assert Threw([], steps)[0];
    steps := steps + [UiClear];
    AssertionsExact(steps);
  }

  lemma {:induction false} OneTaskQueued(e: Event) returns (steps: seq<Step>)
    requires !e.throws
    ensures Legal(INITIAL, steps)
    ensures Run(INITIAL, steps).taskQueue == PushTask([], Task(e.kind, e.id)) && !Run(INITIAL, steps).uiRunning
  {
    LegalMore(INITIAL, [], Register(e.kind));
    steps := [] + [Register(e.kind)];
    LegalMore(INITIAL, steps, Emit(e));
    steps := steps + [Emit(e)];
    LegalMore(INITIAL, steps, Push(e));
    steps := steps + [Push(e)];
    LegalMore(INITIAL, steps, WorkerTest);
    steps := steps + [WorkerTest];
    LegalMore(INITIAL, steps, WorkerSwap);
    steps := steps + [WorkerSwap];
    LegalMore(INITIAL, steps, WorkerInvoke);
    steps := steps + [WorkerInvoke];
  }

  // ---- which events get in ----

  /** The flag is set by Terminate and nothing else, and a kind is registered by its own registration and nothing else. */
  lemma {:induction false} FlagAndRegistrations(s: State, steps: seq<Step>)
    requires Legal(s, steps)
    ensures Run(s, steps).terminating <==> s.terminating || Terminate in steps
    ensures forall k :: k in Run(s, steps).registered <==> k in s.registered || Register(k) in steps
    decreases |steps|
  {
    if steps != [] {
      FlagAndRegistrations(Next(s, steps[0]), steps[1..]);
      assert steps == [steps[0]] + steps[1..];
    }
  }

  /** The i-th step emits an event whose callback was registered before, while termination had not begun. */
  predicate Accepts(steps: seq<Step>, i: nat)
    requires i < |steps|
  {
    steps[i].Emit? && Register(steps[i].event.kind) in steps[..i] && Terminate !in steps[..i]
  }

  function Accepted(steps: seq<Step>): multiset<Event> {
    if steps == [] then multiset{}
    else
      var last := |steps| - 1;
      Accepted(steps[..last]) + if Accepts(steps, last) then multiset{steps[last].event} else multiset{}
  }

  lemma {:induction false} LegalPrefix(s: State, steps: seq<Step>, step: Step)
    requires Legal(s, steps + [step])
    ensures Legal(s, steps) && Enabled(Run(s, steps), step)
    ensures Run(s, steps + [step]) == Next(Run(s, steps), step)
    decreases |steps|
  {
    if steps == [] {
      assert steps + [step] == [step] && [step][1..] == [];
    } else {
      assert (steps + [step])[0] == steps[0] && (steps + [step])[1..] == steps[1..] + [step];
      LegalPrefix(Next(s, steps[0]), steps[1..], step);
    }
  }

  /** In every interleaving, what was pushed and what is about to be are the accepted emissions, each once. */
  lemma {:induction false} EmittedExact(steps: seq<Step>)
    requires Legal(INITIAL, steps)
    ensures multiset(Run(INITIAL, steps).pushed) + Run(INITIAL, steps).ready == Accepted(steps)
    decreases |steps|
  {
    if steps != [] {
      var before, step := steps[..|steps| - 1], steps[|steps| - 1];
      assert steps == before + [step];
      LegalPrefix(INITIAL, before, step);
      EmittedExact(before);
      FlagAndRegistrations(INITIAL, before);
      EmittedStep(Run(INITIAL, before), step);
    }
  }

  lemma {:induction false} EmittedStep(s: State, step: Step)
    requires Enabled(s, step)
    ensures multiset(Next(s, step).pushed) + Next(s, step).ready
      == multiset(s.pushed) + s.ready
         + if step.Emit? && step.event.kind in s.registered && !s.terminating then multiset{step.event} else multiset{}
  {
  }

  // ---- shutdown ----

  /** How far the worker is from leaving its loop once the flag is set. */
  function Rank(pc: WorkerPc): nat {
    match pc
    case AtSwap => 3
    case InBatch => 2
    case AtTest => 1
    case Exited => 0
  }

  function Left(s: State): nat {
    if s.next <= |s.local| then |s.local| - s.next else 0
  }

  /** After the flag is set every worker step makes progress, and no other step undoes it. */
  lemma ShutdownProgress(s: State, step: Step)
    requires s.terminating && Enabled(s, step)
    ensures Next(s, step).terminating
    ensures step.IsWorker() ==>
              || Rank(Next(s, step).pc) < Rank(s.pc)
              || (Rank(Next(s, step).pc) == Rank(s.pc) && Left(Next(s, step)) < Left(s))
    ensures !step.IsWorker() ==> Next(s, step).pc == s.pc && Left(Next(s, step)) == Left(s)
    ensures s.pc == Exited ==> !step.IsWorker()
  {
  }

  function CountSwaps(steps: seq<Step>): nat {
    if steps == [] then 0 else (if steps[0].WorkerSwap? then 1 else 0) + CountSwaps(steps[1..])
  }

  /** At most one more swap happens, and only if the worker had already passed its loop test. */
  lemma {:induction false} OneLastSwap(s: State, steps: seq<Step>)
    requires s.terminating && Legal(s, steps)
    ensures CountSwaps(steps) <= if s.pc == AtSwap then 1 else 0
    decreases steps
  {
    if steps != [] {
      ShutdownProgress(s, steps[0]);
      OneLastSwap(Next(s, steps[0]), steps[1..]);
    }
  }

  /** An endless run: the state before each step, and the step. */
  ghost predicate IsRun(states: nat -> State, steps: nat -> Step) {
    forall i: nat :: Enabled(states(i), steps(i)) && states(i + 1) == Next(states(i), steps(i))
  }

  ghost predicate WorkerMoves(states: nat -> State, steps: nat -> Step, i: nat) {
    steps(i).IsWorker() || states(i).pc == Exited
  }

  ghost predicate WorkerMovesAfter(states: nat -> State, steps: nat -> Step, i: nat) {
    exists j: nat :: j >= i && WorkerMoves(states, steps, j)
  }

  /** The scheduler never forgets the worker. */
  ghost predicate Fair(states: nat -> State, steps: nat -> Step) {
    forall i: nat :: WorkerMovesAfter(states, steps, i)
  }

  /** However fast producers push, the worker leaves its loop once the flag is set. */
  lemma {:induction false} WorkerExits(states: nat -> State, steps: nat -> Step, i: nat, j: nat) returns (k: nat)
    requires IsRun(states, steps) && Fair(states, steps)
    requires states(i).terminating
    requires i <= j && WorkerMoves(states, steps, j)
    ensures i <= k && states(k).pc == Exited
    decreases Rank(states(i).pc), Left(states(i)), j - i
  {
    if states(i).pc == Exited {
      return i;
    }
    assert states(i + 1) == Next(states(i), steps(i));
    ShutdownProgress(states(i), steps(i));
    if i < j {
      k := WorkerExits(states, steps, i + 1, j);
    } else {
      assert WorkerMovesAfter(states, steps, i + 1);
      var next: nat :| next >= i + 1 && WorkerMoves(states, steps, next);
      k := WorkerExits(states, steps, i + 1, next);
    }
  }

  lemma {:induction false} RunReaches(states: nat -> State, steps: nat -> Step, k: nat)
    requires IsRun(states, steps) && Inv(states(0))
    ensures Inv(states(k))
    decreases k
  {
    if k > 0 {
      RunReaches(states, steps, k - 1);
      assert states(k - 1 + 1) == Next(states(k - 1), steps(k - 1));
      StepKeepsInv(states(k - 1), steps(k - 1));
    }
  }

  /**
   Shutting down: the worker exits; by then the callbacks it ran are a prefix of those
   pushed, everything it swapped out has run, and only pending_callbacks_ is left.
   */
  lemma Shutdown(states: nat -> State, steps: nat -> Step, i: nat) returns (k: nat)
    requires IsRun(states, steps) && Fair(states, steps)
    requires states(0) == INITIAL && states(i).terminating
    ensures i <= k && states(k).pc == Exited
    ensures states(k).invoked <= states(k).pushed
    ensures states(k).invoked + states(k).pending == states(k).pushed
  {
    assert WorkerMovesAfter(states, steps, i);
    var j: nat :| j >= i && WorkerMoves(states, steps, j);
    k := WorkerExits(states, steps, i, j);
    RunReaches(states, steps, k);
  }

  // ---- the procedures of the threads ----

  /** The worker's whole loop body, undisturbed: nothing when the flag is set, else the pending batch. */
  function WholeTurn(s: State): State {
    if s.terminating then s.(pc := Exited)
    else s.(pc := AtTest, local := [], next := 0, pending := s.local,
            invoked := s.invoked + s.pending, taskQueue := s.taskQueue + Live(Tasks(s.pending)))
  }

  lemma {:induction false} LiveConcat(a: seq<Task>, b: seq<Task>)
    ensures Live(a + b) == Live(a) + Live(b)
  {
  }

  lemma {:induction false} PushLive(cells: seq<Cell>, e: Event)
    ensures (if e.throws then cells else PushTask(cells, Task(e.kind, e.id))) == cells + Live(Tasks([e]))
  {
    PushTaskIs(cells, Task(e.kind, e.id));
    AppendNothing(cells);
    assert [e][1..] == [];
    assert !e.throws ==> Live(Tasks([e])) == [Made(Task(e.kind, e.id))];
  }

  /** A batch that is under way can be finished by worker steps alone. */
  lemma {:induction false} FinishBatch(s: State) returns (steps: seq<Step>)
    requires s.pc == InBatch && s.next <= |s.local|
    ensures Legal(s, steps)
    ensures Run(s, steps) == s.(pc := AtTest, local := [], next := 0,
                invoked := s.invoked + s.local[s.next..], taskQueue := s.taskQueue + Live(Tasks(s.local[s.next..])))
    decreases |s.local| - s.next
  {
    if s.next == |s.local| {
      steps := [WorkerClear];
      assert steps[1..] == [];
    } else {
      var t := Next(s, WorkerInvoke);
      var rest := FinishBatch(t);
      steps := [WorkerInvoke] + rest;
      assert steps[1..] == rest;
      var e, left := s.local[s.next], s.local[s.next + 1..];
      assert s.local[s.next..] == [e] + left;
      TasksConcat([e], left);
      Assoc(s.invoked, [e], left);
      PushLive(s.taskQueue, e);
      LiveConcat(Tasks([e]), Tasks(left));
      Assoc(s.taskQueue, Live(Tasks([e])), Live(Tasks(left)));
    }
  }

  /** The undisturbed turn is one of the machine's interleavings. */
  lemma WholeTurnIsRun(s: State) returns (steps: seq<Step>)
    requires s.pc == AtTest && s.local == [] && s.next == 0
    ensures Legal(s, steps) && Run(s, steps) == WholeTurn(s)
  {
    if s.terminating {
      steps := [WorkerTest];
      assert steps[1..] == [];
    } else {
      var swapped := Next(Next(s, WorkerTest), WorkerSwap);
      var rest := FinishBatch(swapped);
      assert swapped.local[0..] == s.pending;
      steps := [WorkerTest] + ([WorkerSwap] + rest);
      assert steps[1..] == [WorkerSwap] + rest && steps[1..][1..] == rest;
    }
  }

  /** The UI timer's whole turn, undisturbed: every queued task runs. */
  function WholeDrain(s: State): State {
    s.(taskQueue := s.uiLocal, uiLocal := [], uiNext := 0, uiRunning := false, ran := s.ran + Payload(s.taskQueue))
  }

  /** A UI batch that is under way can be finished, whichever of its tasks throw. */
  lemma {:induction false} FinishUiBatch(s: State, fails: bool) returns (steps: seq<Step>)
    requires s.uiRunning && s.uiNext <= |s.uiLocal|
    ensures Legal(s, steps)
    ensures Run(s, steps) == s.(uiRunning := false, uiLocal := [], uiNext := 0, ran := s.ran + Payload(s.uiLocal[s.uiNext..]))
    decreases |s.uiLocal| - s.uiNext
  {
    if s.uiNext == |s.uiLocal| {
      steps := [UiClear];
      assert steps[1..] == [];
    } else {
      var t := Next(s, UiRun(fails));
      var task, later := s.uiLocal[s.uiNext].task, Payload(t.uiLocal[t.uiNext..]);
      var rest := FinishUiBatch(t, !fails);
      steps := [UiRun(fails)] + rest;
      DropFirst(UiRun(fails), rest);
      assert Payload(s.uiLocal[s.uiNext..]) == [task] + later;
      Assoc(s.ran, [task], later);
    }
  }

  lemma WholeDrainIsRun(s: State) returns (steps: seq<Step>)
    requires !s.uiRunning && s.uiLocal == [] && s.uiNext == 0
    ensures Legal(s, steps) && Run(s, steps) == WholeDrain(s)
  {
    var swapped := Next(s, UiSwap);
    var rest := FinishUiBatch(swapped, false);
    assert swapped.uiLocal[0..] == s.taskQueue;
    steps := [UiSwap] + rest;
    assert steps[1..] == rest;
  }

  lemma {:induction false} WholeTurnKeepsInv(s: State)
    requires Inv(s) && s.pc == AtTest
    ensures Inv(WholeTurn(s))
  {
    var steps := WholeTurnIsRun(s);
    RunKeepsInv(s, steps);
  }

  lemma {:induction false} WholeDrainKeepsInv(s: State)
    requires Inv(s) && !s.uiRunning
    ensures Inv(WholeDrain(s))
  {
    var steps := WholeDrainIsRun(s);
    RunKeepsInv(s, steps);
  }

  class EventPipeline {
    var registered: set<Kind>
    var terminating: bool
    var pending: seq<Event>
    var pc: WorkerPc
    var local: seq<Event>
    var next: nat
    var taskQueue: seq<Cell>
    var uiRunning: bool
    var uiLocal: seq<Cell>
    var uiNext: nat
    ghost var ready: multiset<Event>
    ghost var pushed: seq<Event>
    ghost var invoked: seq<Event>
    ghost var ran: seq<Task>

    ghost function View(): State
      reads this
    {
      State(registered, terminating, ready, pending, pc, local, next, taskQueue, uiRunning, uiLocal, uiNext,
            pushed, invoked, ran)
    }

    constructor ()
      ensures View() == INITIAL && Inv(View())
    {
      registered, terminating, pending, pc, local, next := {}, false, [], AtTest, [], 0;
      taskQueue, uiRunning, uiLocal, uiNext := [], false, [], 0;
      ready, pushed, invoked, ran := multiset{}, [], [], [];
    }

    method RegisterCallback(kind: Kind)
      modifies this`registered
      ensures View() == Next(old(View()), Register(kind))
      ensures old(Inv(View())) ==> Inv(View())
    {
      if Inv(View()) { StepKeepsInv(View(), Register(kind)); }
      registered := registered + {kind};
    }

    /** emit_EVENT up to the test of the flag; the caller goes on to push when told to. */
    method EmitEvent(e: Event) returns (goesOn: bool)
      modifies this`ready
      ensures View() == Next(old(View()), Emit(e))
      ensures old(Inv(View())) ==> Inv(View())
      ensures goesOn ==> Enabled(View(), Push(e))
    {
      if Inv(View()) { StepKeepsInv(View(), Emit(e)); }
      goesOn := e.kind in registered && !terminating;
      if goesOn {
        ready := ready + multiset{e};
      }
    }

    method PushBack(e: Event)
      requires Enabled(View(), Push(e))
      modifies this`ready, this`pending, this`pushed
      ensures View() == Next(old(View()), Push(e))
      ensures old(Inv(View())) ==> Inv(View())
    {
      if Inv(View()) { StepKeepsInv(View(), Push(e)); }
      pending := pending + [e];
      ready, pushed := ready - multiset{e}, pushed + [e];
    }

    method SignalTermination()
      modifies this`terminating
      ensures View() == Next(old(View()), Terminate)
      ensures old(Inv(View())) ==> Inv(View())
    {
      if Inv(View()) { StepKeepsInv(View(), Terminate); }
      terminating := true;
    }

    method InvokeCallback()
      requires Enabled(View(), WorkerInvoke)
      modifies this`taskQueue, this`next, this`invoked
      ensures View() == Next(old(View()), WorkerInvoke)
      ensures old(Inv(View())) ==> Inv(View())
    {
      if Inv(View()) { StepKeepsInv(View(), WorkerInvoke); }
      var callback := local[next];
      if !callback.throws {
        taskQueue := PushTask(taskQueue, Task(callback.kind, callback.id));
      }
      invoked := invoked + [callback];
      next := next + 1;
    }

    method RunTask(fails: bool)
      requires Enabled(View(), UiRun(fails))
      modifies this`uiLocal, this`uiNext, this`ran
      ensures View() == Next(old(View()), UiRun(fails))
      ensures old(Inv(View())) ==> Inv(View())
    {
      if Inv(View()) { StepKeepsInv(View(), UiRun(fails)); }
      var cell := uiLocal[uiNext];
      ran := ran + [cell.task];
      uiLocal := uiLocal[uiNext := Called(cell, fails)];
      uiNext := uiNext + 1;
    }

    /** One turn of the worker's loop with no other thread in between; outside a batch the local queue is empty. */
    method WorkerTurn()
      requires Inv(View()) && pc == AtTest
      modifies this`pc, this`pending, this`local, this`next, this`taskQueue, this`invoked
      ensures View() == WholeTurn(old(View())) && Inv(View())
    {
      WholeTurnKeepsInv(View());
      if terminating {
        pc := Exited;
        return;
      }
      RunBatch();
    }

    method RunBatch()
      requires pc == AtTest && local == [] && next == 0 && !terminating
      modifies this`pc, this`pending, this`local, this`next, this`taskQueue, this`invoked
      ensures pc == AtTest && local == [] && next == 0 && pending == []
      ensures invoked == old(invoked) + old(pending) && taskQueue == old(taskQueue) + Live(Tasks(old(pending)))
    {
      local, pending, next, pc := pending, local, 0, InBatch;
      InvokeAll();
      local, next, pc := [], 0, AtTest;
    }

    method InvokeAll()
      requires pc == InBatch && next == 0
      modifies this`next, this`taskQueue, this`invoked
      ensures next == |local|
      ensures invoked == old(invoked) + local && taskQueue == old(taskQueue) + Live(Tasks(local))
    {
      while next < |local|
        invariant next <= |local|
        invariant invoked == old(invoked) + local[..next] && taskQueue == old(taskQueue) + Live(Tasks(local[..next]))
      {
        ghost var done, e := local[..next], local[next];
        assert local[..next + 1] == done + [e];
        TasksConcat(done, [e]);
        LiveConcat(Tasks(done), Tasks([e]));
        PushLive(taskQueue, e);
        Assoc(old(invoked), done, [e]);
        Assoc(old(taskQueue), Live(Tasks(done)), Live(Tasks([e])));
        InvokeCallback();
      }
      assert local[..next] == local;
    }

    /** One firing of the UI timer; tasks may throw, which the loop swallows. */
    method ConsumeTasks()
      requires Inv(View()) && !uiRunning
      modifies this`taskQueue, this`uiRunning, this`uiLocal, this`uiNext, this`ran
      ensures View() == WholeDrain(old(View())) && Inv(View())
    {
      WholeDrainKeepsInv(View());
      uiLocal, taskQueue, uiNext, uiRunning := taskQueue, uiLocal, 0, true;
      RunAll();
      uiLocal, uiNext, uiRunning := [], 0, false;
    }

    method RunAll()
      requires uiRunning && uiNext == 0
      modifies this`uiLocal, this`uiNext, this`ran
      ensures uiNext == |uiLocal|
      ensures ran == old(ran) + Payload(old(uiLocal))
    {
      ghost var tasks := Payload(uiLocal);
      while uiNext < |uiLocal|
        invariant uiNext <= |uiLocal| == |tasks| && ran == old(ran) + tasks[..uiNext]
        invariant forall i | 0 <= i < |uiLocal| :: uiLocal[i].task == tasks[i]
      {
        var fails: bool := *;
        RunTask(fails);
      }
    }
  }
}
