/**
 Task distribution: worker threads pull batches of tasks from one shared queue into queues of
 their own by load level, and run them.  The protocol is a state machine: one step is one locked
 access of a worker to a queue, with the flags or parameters it reads or writes on the way, or one
 submission, or one command to a worker.

 A task is its submission number.  `Complete` is the command to finish what was taken and stop,
 taken as one step; `Cancel` throws a worker's queue away.  A worker first looks whether its queue
 is empty and then pops, ignoring whether the pop found anything: after a pop that did not, it
 calls the task it popped last once more, and if it never popped one the call throws.
 */
module TaskPool {
  type Task = nat

  datatype Option<T> = None | Some(value: T)

  /** Where a worker's code stands.  `held` tells whether it still holds the shared queue. */
  datatype Place =
    | Starting
    | Head
    | Waiting
    | Linking
    | Choosing(held: bool)
    | Popping(held: bool)
    | Executing(task: Task, held: bool, again: bool)
    | Asking
    | Adding(batch: seq<Task>, thenLevel: bool)
    | Leveling(held: bool)
    | Pulling(want: nat)
    | Leaving
    | Draining
    | DrainPopping
    | DrainExecuting(task: Task, again: bool)
    | Done
    | Returned
    | Threw

  datatype Flags = Flags(running: bool, stopped: bool, wipe: bool, inactive: bool, cancelled: bool, linked: bool)

  datatype Limits = Limits(maxLoad: nat, middle: nat, light: nat)

  /** The task popped last, and the calls of tasks that had been called before. */
  datatype Memory = Memory(last: Option<Task>, repeated: seq<Task>)

  /** `executed` lists the first calls, in order. */
  datatype Worker = Worker(
    place: Place, local: seq<Task>, executed: seq<Task>, memory: Memory, flags: Flags, limits: Limits)

  datatype Pool = Pool(ext: seq<Task>, workers: seq<Worker>, submitted: nat, dropped: seq<Task>)

  datatype Command =
    | Stop
    | Resume(link: bool)
    | Cancel
    | Complete
    | Update(maxLoad: nat, middleDiv: nat, lightDiv: nat, link: bool)
    | Link

  datatype Action = Submit | Work(i: nat) | Order(i: nat, command: Command)

  function NewWorker(linked: bool): Worker {
    Worker(Starting, [], [], Memory(None, []), Flags(false, false, false, false, false, linked), Limits(10, 5, 2))
  }

  function Min(a: nat, b: nat): nat { if a < b then a else b }

  /** How many tasks a pull by level asks for: none at high load, few at middle, more at low load. */
  function LevelWant(w: Worker): nat {
    if 5 * |w.local| >= 4 * w.limits.maxLoad then 0
    else if 5 * |w.local| >= w.limits.maxLoad then w.limits.light
    else w.limits.middle
  }

  /** A single task as asked, a batch cut to half the largest load. */
  function CutSize(l: Limits, want: nat): nat {
    if want <= 1 then want else Min(want, l.maxLoad / 2)
  }

  /** What a pull takes when so many are there. */
  function PullSize(l: Limits, want: nat, have: nat): (n: nat)
    ensures n <= have
  {
    Min(CutSize(l, want), have)
  }

  /** The worker looks into its queue; without a task of its own it asks for one, or ends if it has nowhere to ask. */
  function ChooseStep(w: Worker, held: bool): Worker {
    if w.local != [] then w.(place := Popping(held))
    else if !held then w.(place := Returned)
    else w.(place := Asking)
  }

  /** The pop, whose success is not looked at. */
  function PopStep(w: Worker, held: bool): Worker {
    if w.local != [] then
      w.(place := Executing(w.local[0], held, false), local := w.local[1..], memory := w.memory.(last := Some(w.local[0])))
    else if w.memory.last.None? then w.(place := Threw)
    else w.(place := Executing(w.memory.last.value, held, true))
  }

  function DrainPopStep(w: Worker): Worker {
    if w.local != [] then
      w.(place := DrainExecuting(w.local[0], false), local := w.local[1..], memory := w.memory.(last := Some(w.local[0])))
    else if w.memory.last.None? then w.(place := Threw)
    else w.(place := DrainExecuting(w.memory.last.value, true))
  }

  /** The call is over; the worker goes on at `next`. */
  function CallStep(w: Worker, task: Task, again: bool, next: Place): Worker {
    if again then w.(place := next, memory := w.memory.(repeated := w.memory.repeated + [task]))
    else w.(place := next, executed := w.executed + [task])
  }

  function AskStep(w: Worker, ext: seq<Task>): (r: (Worker, nat))
    ensures r.1 <= |ext|
  {
    if ext == [] then (w.(place := Leveling(true)), 0) else (w.(place := Adding([ext[0]], true)), 1)
  }

  function AddStep(w: Worker, batch: seq<Task>, thenLevel: bool): Worker {
    if batch == [] then w.(place := if thenLevel then Leveling(true) else Head)
    else w.(place := Adding(batch[1..], thenLevel), local := w.local + [batch[0]])
  }

  function LevelStep(w: Worker, held: bool): Worker {
    if !held || LevelWant(w) == 0 then w.(place := Head) else w.(place := Pulling(LevelWant(w)))
  }

  function PullStep(w: Worker, want: nat, ext: seq<Task>): (r: (Worker, nat))
    ensures r.1 <= |ext|
  {
    var n := PullSize(w.limits, want, |ext|);
    (w.(place := Adding(ext[..n], false)), n)
  }

  function DrainStep(w: Worker): Worker {
    if w.local == [] then w.(place := Done, flags := w.flags.(inactive := true)) else w.(place := DrainPopping)
  }

  function LeaveStep(w: Worker): Worker {
    if w.flags.wipe then w.(place := Draining) else w.(place := Done, flags := w.flags.(inactive := true))
  }

  /** One atomic step of a worker; the number is how many tasks it takes from the front of the shared queue. */
  function WorkerStep(w: Worker, ext: seq<Task>): (r: (Worker, nat))
    ensures r.1 <= |ext|
  {
    match w.place
    case Starting => (w.(place := Head, flags := w.flags.(running := true)), 0)
    case Head => (w.(place := if w.flags.running then Waiting else Leaving), 0)
    case Waiting => (if w.flags.stopped then w else w.(place := Linking), 0)
    case Linking => (w.(place := Choosing(w.flags.linked)), 0)
    case Choosing(held) => (ChooseStep(w, held), 0)
    case Popping(held) => (PopStep(w, held), 0)
    case Executing(task, held, again) => (CallStep(w, task, again, Leveling(held)), 0)
    case Asking => AskStep(w, ext)
    case Adding(batch, thenLevel) => (AddStep(w, batch, thenLevel), 0)
    case Leveling(held) => (LevelStep(w, held), 0)
    case Pulling(want) => PullStep(w, want, ext)
    case Leaving => (LeaveStep(w), 0)
    case Draining => (DrainStep(w), 0)
    case DrainPopping => (DrainPopStep(w), 0)
    case DrainExecuting(task, again) => (CallStep(w, task, again, Draining), 0)
    case _ => (w, 0)
  }

  function LimitsFor(maxLoad: nat, middleDiv: nat, lightDiv: nat): Limits {
    Limits(maxLoad, if middleDiv == 0 then 0 else maxLoad / middleDiv, if lightDiv == 0 then 0 else maxLoad / lightDiv)
  }

  function Obey(w: Worker, command: Command): Worker {
    match command
    case Stop => w.(flags := w.flags.(stopped := true, linked := false))
    case Resume(link) => w.(flags := w.flags.(stopped := false, linked := link))
    case Cancel => w.(flags := w.flags.(running := false, linked := false, cancelled := true), local := [])
    case Complete => w.(flags := w.flags.(running := false, wipe := true, linked := false))
    case Update(maxLoad, middleDiv, lightDiv, link) =>
      w.(flags := w.flags.(linked := link), limits := LimitsFor(maxLoad, middleDiv, lightDiv))
    case Link => w.(flags := w.flags.(linked := true))
  }

  function Step(p: Pool, a: Action): (r: Pool)
    ensures |r.workers| == |p.workers|
  {
    match a
    case Submit => p.(ext := p.ext + [p.submitted], submitted := p.submitted + 1)
    case Work(i) =>
      if i >= |p.workers| then p
      else
        var (w, n) := WorkerStep(p.workers[i], p.ext);
        p.(ext := p.ext[n..], workers := p.workers[i := w])
    case Order(i, command) =>
      if i >= |p.workers| then p
      else
        p.(workers := p.workers[i := Obey(p.workers[i], command)], dropped := p.dropped + Lost(p.workers[i], command))
  }

  function Lost(w: Worker, command: Command): seq<Task> { if command.Cancel? then w.local else [] }

  function Run(p: Pool, actions: seq<Action>): (r: Pool)
    ensures |r.workers| == |p.workers|
    decreases actions
  {
    if actions == [] then p else Run(Step(p, actions[0]), actions[1..])
  }

  function Start(workers: nat, linked: bool): Pool {
    Pool([], seq(workers, _ => NewWorker(linked)), 0, [])
  }

  // ---- what a worker has taken, in order ----

  function InFlight(w: Worker): seq<Task> {
    match w.place
    case Executing(task, _, again) => if again then [] else [task]
    case DrainExecuting(task, again) => if again then [] else [task]
    case _ => []
  }

  function Batch(w: Worker): seq<Task> { if w.place.Adding? then w.place.batch else [] }

  /** Executed, then running, then queued, then on the way into the queue. */
  function Taken(w: Worker): seq<Task> { w.executed + InFlight(w) + w.local + Batch(w) }

  /** The step keeps what the worker had taken and adds what it took from the shared queue. */
  ghost predicate Moves(w: Worker, ext: seq<Task>) {
    var (w', n) := WorkerStep(w, ext);
    Taken(w') == Taken(w) + ext[..n]
  }

  lemma {:induction false} PopMoves(executed: seq<Task>, local: seq<Task>)
    requires local != []
    ensures executed + [local[0]] + local[1..] + [] == executed + [] + local + []
  {
    assert [local[0]] + local[1..] == local;
  }

  lemma {:induction false} PoppingMoves(w: Worker, ext: seq<Task>)
    requires w.place.Popping? || w.place.DrainPopping?
    ensures Moves(w, ext)
  {
    hide ChooseStep, CallStep, AskStep, AddStep, LevelStep, PullStep, DrainStep, LeaveStep;
    if w.local != [] { PopMoves(w.executed, w.local); }
  }

  lemma {:induction false} AddingMoves(w: Worker, ext: seq<Task>)
    requires w.place.Adding?
    ensures Moves(w, ext)
  {
    hide ChooseStep, PopStep, DrainPopStep, CallStep, AskStep, LevelStep, PullStep, DrainStep, LeaveStep;
    var batch := w.place.batch;
    if batch != [] {
      assert [batch[0]] + batch[1..] == batch;
      assert w.executed + [] + (w.local + [batch[0]]) + batch[1..] == w.executed + [] + w.local + batch;
    }
  }

  lemma {:induction false} TakingMoves(w: Worker, ext: seq<Task>)
    requires w.place.Asking? || w.place.Pulling?
    ensures Moves(w, ext)
  {
    hide ChooseStep, PopStep, DrainPopStep, CallStep, AddStep, LevelStep, PullSize, DrainStep, LeaveStep;
    if w.place.Asking? && ext != [] { assert ext[..1] == [ext[0]]; }
  }

  lemma {:induction false} CallMoves(w: Worker, ext: seq<Task>)
    requires w.place.Executing? || w.place.DrainExecuting?
    ensures Moves(w, ext)
  {
    hide ChooseStep, PopStep, DrainPopStep, AskStep, AddStep, LevelStep, PullStep, DrainStep, LeaveStep;
    assert w.executed + [w.place.task] + [] == w.executed + [w.place.task];
  }

  predicate Still(w: Worker) {
    !(w.place.Popping? || w.place.DrainPopping? || w.place.Adding? || w.place.Asking? || w.place.Pulling?
      || w.place.Executing? || w.place.DrainExecuting?)
  }

  /** At the other places a step touches no task at all. */
  lemma {:induction false} StillStep(w: Worker, ext: seq<Task>)
    requires Still(w)
    ensures var (w', n) := WorkerStep(w, ext);
      && n == 0 && w'.local == w.local && w'.executed == w.executed && w'.memory == w.memory && w'.limits == w.limits
      && InFlight(w') == InFlight(w) == [] && Batch(w') == Batch(w) == []
  {
    hide PopStep, DrainPopStep, CallStep, AskStep, AddStep, PullStep, LevelWant;
  }

  lemma {:induction false} StillMoves(w: Worker, ext: seq<Task>)
    requires Still(w)
    ensures Moves(w, ext)
  {
    hide WorkerStep;
    StillStep(w, ext);
  }

  /** The heart of the protocol: whatever the step, nothing a worker has taken is lost or reordered. */
  lemma {:induction false} WorkerStepMoves(w: Worker, ext: seq<Task>)
    ensures var (w', n) := WorkerStep(w, ext); Taken(w') == Taken(w) + ext[..n]
  {
    assert Moves(w, ext) by {
      hide Moves;
      match w.place {
        case Popping(_) => PoppingMoves(w, ext);
        case DrainPopping => PoppingMoves(w, ext);
        case Adding(_, _) => AddingMoves(w, ext);
        case Asking => TakingMoves(w, ext);
        case Pulling(_) => TakingMoves(w, ext);
        case Executing(_, _, _) => CallMoves(w, ext);
        case DrainExecuting(_, _) => CallMoves(w, ext);
        case _ => StillMoves(w, ext);
      }
    }
    hide WorkerStep, Taken;
  }

  // ---- calls made again ----

  /** Between its look into its queue and its pop, the worker's queue has been emptied. */
  predicate AtGap(w: Worker) { (w.place.Popping? || w.place.DrainPopping?) && w.local == [] }

  function Again(w: Worker): seq<Task> {
    match w.place
    case Executing(task, _, again) => if again then [task] else []
    case DrainExecuting(task, again) => if again then [task] else []
    case _ => []
  }

  /** The calls begun of tasks that had been called before. */
  function Repeated(w: Worker): seq<Task> { w.memory.repeated + Again(w) }

  /** What may be called again was called before. */
  predicate MemoryOk(w: Worker) {
    && (w.memory.last.Some? ==> w.memory.last.value in w.executed + InFlight(w))
    && (forall i :: 0 <= i < |Repeated(w)| ==> Repeated(w)[i] in w.executed)
  }

  /** A step calls a task again exactly in the gap, and then it is the one popped last; it throws if there is none. */
  lemma {:induction false} RepeatsIff(w: Worker, ext: seq<Task>)
    ensures var w' := WorkerStep(w, ext).0;
      && (Repeated(w') != Repeated(w) <==> AtGap(w) && w.memory.last.Some?)
      && (AtGap(w) && w.memory.last.Some? ==> Repeated(w') == Repeated(w) + [w.memory.last.value])
      && (w'.place.Threw? <==> w.place.Threw? || (AtGap(w) && w.memory.last.None?))
  {
    if Still(w) {
      StillRepeats(w, ext);
    } else if w.place.Popping? || w.place.DrainPopping? {
      PopRepeats(w, ext);
    } else {
      OtherRepeats(w, ext);
    }
  }

  lemma {:induction false} StillRepeats(w: Worker, ext: seq<Task>)
    requires Still(w)
    ensures var w' := WorkerStep(w, ext).0; Repeated(w') == Repeated(w) && (w'.place.Threw? <==> w.place.Threw?)
  {
    hide PopStep, DrainPopStep, CallStep, AskStep, AddStep, PullStep, LevelWant;
  }

  lemma {:induction false} PopRepeats(w: Worker, ext: seq<Task>)
    requires w.place.Popping? || w.place.DrainPopping?
    ensures var w' := WorkerStep(w, ext).0;
      && (!AtGap(w) ==> Repeated(w') == Repeated(w) && !w'.place.Threw?)
      && (AtGap(w) && w.memory.last.Some? ==> Repeated(w') == Repeated(w) + [w.memory.last.value] && !w'.place.Threw?)
      && (AtGap(w) && w.memory.last.None? ==> Repeated(w') == Repeated(w) && w'.place.Threw?)
  {
    hide ChooseStep, CallStep, AskStep, AddStep, LevelStep, PullStep, DrainStep, LeaveStep;
  }

  lemma {:induction false} OtherRepeats(w: Worker, ext: seq<Task>)
    requires !Still(w) && !w.place.Popping? && !w.place.DrainPopping?
    ensures var w' := WorkerStep(w, ext).0; Repeated(w') == Repeated(w) && !w'.place.Threw?
  {
    hide ChooseStep, PopStep, DrainPopStep, LevelStep, PullSize, DrainStep, LeaveStep;
  }

  /** What is kept when the first calls only grow and a new call again is one that may be. */
  lemma {:induction false} MemoryKept(w: Worker, w': Worker)
    requires MemoryOk(w) && w.executed <= w'.executed
    requires w.executed + InFlight(w) <= w'.executed + InFlight(w')
    requires w'.memory.last == w.memory.last || (w'.memory.last.Some? && InFlight(w') == [w'.memory.last.value])
    requires Repeated(w') == Repeated(w)
      || (w.memory.last.Some? && InFlight(w) == [] && Repeated(w') == Repeated(w) + [w.memory.last.value])
    ensures MemoryOk(w')
  {
    hide Repeated, InFlight;
    forall i | 0 <= i < |Repeated(w')| ensures Repeated(w')[i] in w'.executed {
      if i < |Repeated(w)| {
        assert Repeated(w)[i] in w.executed;
      } else {
        assert w.memory.last.value in w.executed + [];
      }
    }
    if w'.memory.last == w.memory.last {
      assert w.memory.last.Some? ==> w.memory.last.value in w'.executed + InFlight(w');
    } else {
      assert w'.memory.last.value in InFlight(w');
    }
  }

  lemma {:induction false} WorkKeepsMemory(w: Worker, ext: seq<Task>)
    requires MemoryOk(w)
    ensures MemoryOk(WorkerStep(w, ext).0)
  {
    hide WorkerStep, MemoryOk, Repeated, InFlight, Again;
    RepeatsIff(w, ext);
    FirstCallsGrow(w, ext);
    MemoryKept(w, WorkerStep(w, ext).0);
  }

  lemma {:induction false} FirstCallsGrow(w: Worker, ext: seq<Task>)
    ensures var w' := WorkerStep(w, ext).0;
      && w.executed <= w'.executed && w.executed + InFlight(w) <= w'.executed + InFlight(w')
      && (w'.memory.last == w.memory.last || (w'.memory.last.Some? && InFlight(w') == [w'.memory.last.value]))
    ensures AtGap(w) ==> InFlight(w) == []
  {
    if Still(w) {
      hide WorkerStep;
      StillStep(w, ext);
    } else {
      hide ChooseStep, LevelStep, PullSize, DrainStep, LeaveStep;
    }
  }
}
