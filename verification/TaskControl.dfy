/**
 What the commands to a worker are for: a stopped worker comes to rest and takes nothing until it is
 resumed, a cancelled one ends, and links and batch sizes are what the last command said.
 */
module TaskControl {
  import opened TaskPool
  import opened TaskSafety
  import opened TaskRuns
  import opened TaskCompletion

  // ---- stop and resume ----

  /** How many steps of its own bring a worker in its loop back to the place where it waits. */
  function ToWait(w: Worker): nat {
    var pull := Most(w.limits);
    match w.place
    case Head => 1
    case Linking => pull + 9
    case Choosing(_) => pull + 8
    case Asking => pull + 7
    case Popping(_) => pull + 6
    case Executing(_, _, _) => pull + 5
    case Leveling(_) => pull + 4
    case Pulling(_) => pull + 3
    case Adding(batch, thenLevel) => |batch| + (if thenLevel then pull + 5 else 2)
    case _ => 0
  }

  /** The worker has been told to stop and is in its loop, or its thread has returned. */
  predicate Stopping(w: Worker) {
    w.flags.running && w.flags.stopped && (InLoop(w) || w.place.Returned?) && !AtGap(w)
  }

  lemma {:induction false} StoppingStep(w: Worker, ext: seq<Task>)
    requires Stopping(w)
    ensures var w' := WorkerStep(w, ext).0;
      Stopping(w') && (if ToWait(w) == 0 then w' == w else ToWait(w') < ToWait(w))
  {
    hide LevelWant;
    if w.place.Pulling? { PullAtMost(w.limits, w.place.want, |ext|); }
    hide PullSize;
  }

  lemma {:induction false} StoppingSteps(w: Worker, exts: seq<seq<Task>>)
    requires Stopping(w) && |exts| >= ToWait(w)
    ensures var w' := Own(w, exts); w'.place.Waiting? || w'.place.Returned?
    decreases exts
  {
    hide WorkerStep, Stopping, ToWait;
    if exts == [] {
      AtRest(w);
    } else {
      StoppingStep(w, exts[0]);
      StoppingSteps(WorkerStep(w, exts[0]).0, exts[1..]);
    }
  }

  lemma {:induction false} AtRest(w: Worker)
    requires Stopping(w) && ToWait(w) == 0
    ensures w.place.Waiting? || w.place.Returned?
  {
  }

  lemma {:induction false} ToldToStop(w: Worker)
    requires InLoop(w) && w.flags.running && !AtGap(w)
    ensures Stopping(Obey(w, Stop)) && ToWait(Obey(w, Stop)) == ToWait(w)
  {
  }

  /** In any run in which nobody else commands it, a worker told to stop comes to rest, or its thread has returned. */
  lemma {:induction false} StopsInAnyRun(p: Pool, i: nat, actions: seq<Action>)
    requires i < |p.workers| && InLoop(p.workers[i]) && p.workers[i].flags.running && !AtGap(p.workers[i])
    requires NoOrderTo(actions, i) && CountWork(actions, i) >= ToWait(p.workers[i])
    ensures var w' := Run(Step(p, Order(i, Stop)), actions).workers[i]; w'.place.Waiting? || w'.place.Returned?
  {
    hide Run, Own, Contents, Obey, ToWait, Stopping, InLoop;
    var p1 := Step(p, Order(i, Stop));
    ToldToStop(p.workers[i]);
    RunIsOwn(p1, i, actions);
    StoppingSteps(p1.workers[i], Contents(p1, i, actions));
  }

  /** At rest it does nothing at all, whatever is submitted and whatever others do, until it is told to go on. */
  lemma {:induction false} RestsInAnyRun(p: Pool, i: nat, actions: seq<Action>)
    requires i < |p.workers| && p.workers[i].place.Waiting? && p.workers[i].flags.stopped && NoOrderTo(actions, i)
    ensures Run(p, actions).workers[i] == p.workers[i]
    decreases actions
  {
    if actions != [] {
      if actions[0] != Work(i) { OthersLeaveAlone(p, i, actions[0]); }
      RestsInAnyRun(Step(p, actions[0]), i, actions[1..]);
    }
  }

  /** Resumed, it goes on with its next step, and only then. */
  lemma {:induction false} GoesOnIff(w: Worker, link: bool, ext: seq<Task>)
    requires w.place.Waiting?
    ensures WorkerStep(Obey(w, Resume(link)), ext).0.place.Linking?
    ensures WorkerStep(w, ext).0.place.Linking? <==> !w.flags.stopped
  {
  }

  // ---- the shared queue ----

  /** Whether a worker can reach the shared queue after a command. */
  predicate Links(command: Command, before: bool) {
    match command
    case Stop => false
    case Resume(link) => link
    case Cancel => false
    case Complete => false
    case Update(_, _, _, link) => link
    case Link => true
  }

  /** A worker about to look for the queue, with none of its own tasks, asks there for one exactly when the command left it one; else it returns. */
  lemma {:induction false} AsksIff(w: Worker, command: Command, exts: seq<seq<Task>>)
    requires w.place.Linking? && w.local == [] && |exts| == 2
    ensures var w' := Own(Obey(w, command), exts);
      if Links(command, w.flags.linked) then w'.place.Asking? else w'.place.Returned?
  {
    var w1 := Obey(w, command);
    var w2 := WorkerStep(w1, exts[0]).0;
    var w3 := WorkerStep(w2, exts[1]).0;
    assert exts[1..][0] == exts[1] && exts[1..][1..] == [];
    assert Own(w1, exts) == Own(w2, exts[1..]) == Own(w3, []);
  }

  /** The worker found no queue at its last look. */
  predicate Unheld(w: Worker) {
    match w.place
    case Choosing(held) => !held
    case Popping(held) => !held
    case Executing(_, held, _) => !held
    case Leveling(held) => !held
    case _ => false
  }

  /** It then takes nothing from it in the whole round: it goes on without it, back to the head of its loop, or ends. */
  lemma {:induction false} UnheldTakesNothing(w: Worker, ext: seq<Task>)
    requires Unheld(w)
    ensures var (w', n) := WorkerStep(w, ext);
      n == 0 && (Unheld(w') || w'.place.Head? || w'.place.Returned? || w'.place.Threw?)
  {
  }

  // ---- cancel ----

  lemma {:induction false} BetweenNearsEnd(w: Worker, ext: seq<Task>)
    requires Between(w) && !AtEnd(w)
    ensures Fuel(WorkerStep(w, ext).0) < Fuel(w)
  {
    if Still(w) { StillNearsEnd(w, ext); } else { BusyNearsEnd(w, ext); }
  }

  lemma {:induction false} StillNearsEnd(w: Worker, ext: seq<Task>)
    requires Between(w) && !AtEnd(w) && Still(w)
    ensures Fuel(WorkerStep(w, ext).0) < Fuel(w)
  {
    hide PopStep, DrainPopStep, CallStep, AskStep, AddStep, PullStep, LevelWant, Most;
  }

  lemma {:induction false} BusyNearsEnd(w: Worker, ext: seq<Task>)
    requires Between(w) && !AtEnd(w) && !Still(w)
    ensures Fuel(WorkerStep(w, ext).0) < Fuel(w)
  {
    hide ChooseStep, LevelStep, LeaveStep, DrainStep, LevelWant;
    if w.place.Pulling? { PullAtMost(w.limits, w.place.want, |ext|); }
    hide PullSize;
  }

  lemma {:induction false} BetweenEnds(w: Worker, exts: seq<seq<Task>>)
    requires Between(w) && |exts| >= Fuel(w)
    ensures AtEnd(Own(w, exts))
    decreases exts
  {
    hide WorkerStep, Between, Fuel, AtEnd;
    if exts == [] {
      BetweenNoFuel(w);
    } else {
      BetweenStep(w, exts[0]);
      if AtEnd(w) { EndStays(w, exts); } else {
        BetweenNearsEnd(w, exts[0]);
        BetweenEnds(WorkerStep(w, exts[0]).0, exts[1..]);
      }
    }
  }

  lemma {:induction false} BetweenNoFuel(w: Worker)
    requires Between(w) && Fuel(w) == 0
    ensures AtEnd(w)
  {
  }

  lemma {:induction false} EndStays(w: Worker, exts: seq<seq<Task>>)
    requires AtEnd(w)
    ensures Own(w, exts) == w
    decreases exts
  {
    if exts != [] { EndStays(w, exts[1..]); }
  }

  /** A cancelled worker ends, in any run in which nobody commands it further, unless it was in the gap before a pop. */
  lemma {:induction false} CancelledEnds(p: Pool, i: nat, actions: seq<Action>)
    requires i < |p.workers| && NoOrderTo(actions, i)
    requires var w := p.workers[i];
      && InLoop(w) && !w.place.Popping? && !w.flags.stopped && !w.flags.wipe && InactiveIsDone(w)
      && CountWork(actions, i) >= Fuel(Obey(w, Cancel))
    ensures AtEnd(Run(Step(p, Order(i, Cancel)), actions).workers[i])
  {
    hide Run, Own, Contents, Fuel;
    var p1 := Step(p, Order(i, Cancel));
    RunIsOwn(p1, i, actions);
    BetweenEnds(p1.workers[i], Contents(p1, i, actions));
  }

  // ---- the sizes of batches ----

  /** An update sets the largest load, and the batches to its whole parts. */
  lemma {:induction false} UpdateSets(w: Worker, maxLoad: nat, middleDiv: nat, lightDiv: nat, link: bool)
    requires middleDiv > 0 && lightDiv > 0
    ensures var l := Obey(w, Update(maxLoad, middleDiv, lightDiv, link)).limits;
      && l.maxLoad == maxLoad
      && l.middle * middleDiv <= maxLoad < (l.middle + 1) * middleDiv
      && l.light * lightDiv <= maxLoad < (l.light + 1) * lightDiv
  {
    QuotientBounds(maxLoad, middleDiv);
    QuotientBounds(maxLoad, lightDiv);
  }

  lemma QuotientBounds(n: nat, d: nat)
    requires d > 0
    ensures n / d * d <= n < (n / d + 1) * d
  {
    assert n == n / d * d + n % d;
  }

  /**
   A worker that was never updated: with at most one task of its own it pulls up to five, with two to
   seven up to two, with eight or more none.
   */
  lemma {:induction false} DefaultBands(w: Worker, linked: bool, ext: seq<Task>) returns (k: nat, n: nat)
    requires w.place == Leveling(true) && w.limits == NewWorker(linked).limits
    ensures n <= |ext| && Steps(w, ext, k) == (w.(place := Head, local := w.local + ext[..n]), ext[n..])
    ensures n == (var most := if |w.local| < 2 then 5 else if |w.local| < 8 then 2 else 0;
                  if |ext| < most then |ext| else most)
  {
    hide Steps;
    k, n := LevelBands(w, ext);
  }
}
