/**
 The end of a worker: told to complete, it finishes what it took, whatever the other workers, the
 submitters and the shared queue do meanwhile.
 */
module TaskCompletion {
  import opened TaskPool
  import opened TaskSafety
  import opened TaskRuns

  /** The most one batch can hold. */
  function Most(l: Limits): nat { if l.maxLoad / 2 > 1 then l.maxLoad / 2 else 1 }

  /** How many steps of its own a worker told to complete can still need. */
  function Fuel(w: Worker): nat {
    var local, pull := 3 * |w.local|, 4 * Most(w.limits);
    match w.place
    case Starting => local + pull + 16
    case Waiting => local + pull + 15
    case Linking => local + pull + 14
    case Choosing(_) => local + pull + 13
    case Asking => local + pull + 12
    case Adding(batch, thenLevel) => local + 4 * |batch| + (if thenLevel then pull + 7 else 4)
    case Popping(_) => local + pull + 5
    case Executing(_, _, _) => local + pull + 7
    case Leveling(_) => local + pull + 6
    case Pulling(_) => local + pull + 5
    case Head => local + 3
    case Leaving => local + 2
    case Draining => local + 1
    case DrainPopping => local
    case DrainExecuting(_, _) => local + 2
    case _ => 0
  }

  /** How many tasks it can still take: one it asks for and one batch. */
  function Budget(w: Worker): nat {
    match w.place
    case Starting => 1 + Most(w.limits)
    case Waiting => 1 + Most(w.limits)
    case Linking => 1 + Most(w.limits)
    case Choosing(_) => 1 + Most(w.limits)
    case Asking => 1 + Most(w.limits)
    case Popping(_) => Most(w.limits)
    case Executing(_, _, _) => Most(w.limits)
    case Adding(_, thenLevel) => if thenLevel then Most(w.limits) else 0
    case Leveling(_) => Most(w.limits)
    case Pulling(_) => Most(w.limits)
    case _ => 0
  }

  /** The worker has been told to complete, is past its start, not held up by a stop, and was not cancelled in the gap. */
  predicate Completing(w: Worker) {
    !w.flags.running && w.flags.wipe && !w.flags.stopped && !w.place.Starting? && !w.place.Threw? && !AtGap(w)
  }

  /** An ended worker left nothing behind. */
  predicate EndOk(w: Worker) {
    AtEnd(w) ==> Idle(w) && (w.flags.inactive || w.place.Returned?)
  }

  /** Every step brings the end nearer, whatever the shared queue holds at that moment. */
  lemma {:induction false} CompletingStep(w: Worker, ext: seq<Task>)
    requires Completing(w) && !AtEnd(w)
    ensures var (w', n) := WorkerStep(w, ext);
      && Completing(w') && EndOk(w') && w'.limits == w.limits
      && Fuel(w') < Fuel(w) && n + Budget(w') <= Budget(w)
  {
    hide LevelWant;
    if w.place.Pulling? { PullAtMost(w.limits, w.place.want, |ext|); }
    hide PullSize;
  }

  lemma {:induction false} PullAtMost(l: Limits, want: nat, have: nat)
    ensures PullSize(l, want, have) <= Most(l)
  {
  }

  predicate NoOrderTo(actions: seq<Action>, i: nat) {
    forall k :: 0 <= k < |actions| && actions[k].Order? ==> actions[k].i != i
  }

  function CountWork(actions: seq<Action>, i: nat): nat {
    if actions == [] then 0 else (if actions[0] == Work(i) then 1 else 0) + CountWork(actions[1..], i)
  }

  /** What worker i takes from the shared queue in a run, in order. */
  function Pulled(p: Pool, i: nat, actions: seq<Action>): seq<Task>
    requires i < |p.workers|
    decreases actions
  {
    if actions == [] then []
    else
      var now := if actions[0] == Work(i) then p.ext[..WorkerStep(p.workers[i], p.ext).1] else [];
      now + Pulled(Step(p, actions[0]), i, actions[1..])
  }

  lemma {:induction false} OthersLeaveAlone(p: Pool, i: nat, a: Action)
    requires i < |p.workers| && a != Work(i) && (a.Order? ==> a.i != i)
    ensures Step(p, a).workers[i] == p.workers[i]
  {
  }

  lemma {:induction false} Glued(a: seq<Task>, b: seq<Task>, c: seq<Task>)
    ensures a + (b + c) == a + b + c && a + ([] + c) == a + c
  {
  }

  /**
   In any run with enough steps of the worker and no further order to it, among any submissions and
   any steps and orders of others: a worker told to complete has ended; it has executed, in order,
   everything it had taken and what it took on the way, which is at most one task and one batch; it
   called nothing again; its thread went inactive or just returned (see InactiveIff).
   */
  lemma {:induction false} CompletesEverything(p: Pool, i: nat, actions: seq<Action>)
    requires i < |p.workers| && Completing(p.workers[i]) && EndOk(p.workers[i])
    requires NoOrderTo(actions, i) && CountWork(actions, i) >= Fuel(p.workers[i])
    ensures var w, w', pulled := p.workers[i], Run(p, actions).workers[i], Pulled(p, i, actions);
      && AtEnd(w') && EndOk(w') && w'.executed == Taken(w) + pulled && |pulled| <= Budget(w)
      && Repeated(w') == Repeated(w)
    decreases actions
  {
    hide WorkerStep, Completing, Fuel, Budget, Taken, Repeated, EndOk;
    var w := p.workers[i];
    if actions == [] {
      NoFuel(w);
      EndTaken(w);
    } else {
      var p1 := Step(p, actions[0]);
      if actions[0] == Work(i) {
        WorkTowardsEnd(w, p.ext);
        CompletesEverything(p1, i, actions[1..]);
        var n := WorkerStep(w, p.ext).1;
        Glued(Taken(w), p.ext[..n], Pulled(p1, i, actions[1..]));
      } else {
        OthersLeaveAlone(p, i, actions[0]);
        CompletesEverything(p1, i, actions[1..]);
        Glued(Taken(w), [], Pulled(p1, i, actions[1..]));
      }
    }
  }

  lemma {:induction false} WorkTowardsEnd(w: Worker, ext: seq<Task>)
    requires Completing(w) && EndOk(w)
    ensures var (w', n) := WorkerStep(w, ext);
      && Completing(w') && EndOk(w') && Taken(w') == Taken(w) + ext[..n] && Repeated(w') == Repeated(w)
      && n + Budget(w') <= Budget(w) && (Fuel(w') < Fuel(w) || Fuel(w') == 0)
  {
    hide Taken, Repeated, EndOk;
    WorkerStepMoves(w, ext);
    RepeatsIff(w, ext);
    if AtEnd(w) {
      assert WorkerStep(w, ext) == (w, 0);
    } else {
      CompletingStep(w, ext);
      hide WorkerStep;
    }
  }

  lemma {:induction false} NoFuel(w: Worker)
    requires Completing(w) && Fuel(w) == 0
    ensures AtEnd(w)
  {
  }

  lemma {:induction false} EndTaken(w: Worker)
    requires AtEnd(w) && EndOk(w)
    ensures w.executed == Taken(w) + []
  {
  }

  // ---- inactive or just returned ----

  /** It stands before its look into its empty queue, or is past it, and has nowhere to ask for a task. */
  predicate ReturnsEarly(w: Worker) {
    || w.place.Returned?
    || (w.local == []
        && (((w.place.Waiting? || w.place.Linking?) && !w.flags.linked) || w.place == Choosing(false)))
  }

  predicate InactiveIsDone(w: Worker) { w.flags.inactive <==> w.place.Done? }

  lemma {:induction false} StepKeepsEarly(w: Worker, ext: seq<Task>)
    requires Completing(w) && InactiveIsDone(w)
    ensures ReturnsEarly(WorkerStep(w, ext).0) == ReturnsEarly(w) && InactiveIsDone(WorkerStep(w, ext).0)
  {
    hide LevelWant, PullSize;
  }

  lemma {:induction false} EndIsEarlyOrDone(w: Worker)
    requires AtEnd(w) && InactiveIsDone(w)
    ensures w.flags.inactive <==> !ReturnsEarly(w)
  {
  }

  /**
   In the same runs, the worker becomes inactive if and only if it was not told with an empty queue
   and without the shared queue when it stood before its look, where its thread just returns.
   */
  lemma {:induction false} InactiveIff(p: Pool, i: nat, actions: seq<Action>)
    requires i < |p.workers| && Completing(p.workers[i]) && EndOk(p.workers[i]) && InactiveIsDone(p.workers[i])
    requires NoOrderTo(actions, i) && CountWork(actions, i) >= Fuel(p.workers[i])
    ensures Run(p, actions).workers[i].flags.inactive <==> !ReturnsEarly(p.workers[i])
    decreases actions
  {
    hide WorkerStep, Completing, Fuel, Budget, Taken, Repeated, EndOk, ReturnsEarly, InactiveIsDone;
    var w := p.workers[i];
    if actions == [] {
      NoFuel(w);
      EndIsEarlyOrDone(w);
    } else if actions[0] == Work(i) {
      WorkTowardsEnd(w, p.ext);
      StepKeepsEarly(w, p.ext);
      InactiveIff(Step(p, actions[0]), i, actions[1..]);
    } else {
      OthersLeaveAlone(p, i, actions[0]);
      InactiveIff(Step(p, actions[0]), i, actions[1..]);
    }
  }

  lemma {:induction false} WorkKeepsInactive(w: Worker, ext: seq<Task>)
    requires InactiveIsDone(w)
    ensures InactiveIsDone(WorkerStep(w, ext).0)
  {
    if Still(w) { StillInactive(w, ext); } else { BusyInactive(w, ext); }
  }

  lemma {:induction false} StillInactive(w: Worker, ext: seq<Task>)
    requires InactiveIsDone(w) && Still(w)
    ensures InactiveIsDone(WorkerStep(w, ext).0)
  {
    hide PopStep, DrainPopStep, CallStep, AskStep, AddStep, PullStep, LevelWant;
  }

  lemma {:induction false} BusyInactive(w: Worker, ext: seq<Task>)
    requires InactiveIsDone(w) && !Still(w)
    ensures InactiveIsDone(WorkerStep(w, ext).0)
  {
    hide ChooseStep, LevelStep, LeaveStep, DrainStep, PullSize;
  }

  /** In every reachable state exactly the workers that ended regularly are inactive. */
  lemma {:induction false} RunKeepsInactive(p: Pool, actions: seq<Action>, i: nat)
    requires i < |p.workers| && InactiveIsDone(p.workers[i])
    ensures InactiveIsDone(Run(p, actions).workers[i])
    decreases actions
  {
    hide WorkerStep;
    if actions != [] {
      if actions[0] == Work(i) { WorkKeepsInactive(p.workers[i], p.ext); }
      RunKeepsInactive(Step(p, actions[0]), actions[1..], i);
    }
  }

  /** The worker is in its loop: it has started and not left. */
  predicate InLoop(w: Worker) { !w.place.Starting? && !Ending(w) }

  lemma {:induction false} ToldInLoop(w: Worker)
    requires InLoop(w) && !w.flags.stopped && !AtGap(w)
    ensures Completing(Obey(w, Complete)) && EndOk(Obey(w, Complete))
    ensures ReturnsEarly(Obey(w, Complete))
      <==> w.local == [] && (w.place.Waiting? || w.place.Linking? || w.place == Choosing(false))
  {
  }

  /**
   In every run from the start, of any workers: a worker in its loop that is told to complete, and is
   then left alone by other orders, becomes inactive if and only if its queue is not empty or it does
   not stand between the head of its loop and its look.
   */
  lemma {:induction false} CompletedIsInactiveIff(
    n: nat, linked: bool, before: seq<Action>, i: nat, after: seq<Action>)
    requires i < n
    requires var w := Run(Start(n, linked), before).workers[i];
      && InLoop(w) && !w.flags.stopped && !AtGap(w)
      && NoOrderTo(after, i) && CountWork(after, i) >= Fuel(w)
    ensures var p := Run(Start(n, linked), before);
      var w, w' := p.workers[i], Run(Step(p, Order(i, Complete)), after).workers[i];
      w'.flags.inactive <==> !(w.local == [] && (w.place.Waiting? || w.place.Linking? || w.place == Choosing(false)))
  {
    hide Run, Completing, EndOk, ReturnsEarly, InLoop, AtGap;
    var p := Run(Start(n, linked), before);
    RunKeepsInactive(Start(n, linked), before, i);
    ToldInLoop(p.workers[i]);
    InactiveIff(Step(p, Order(i, Complete)), i, after);
  }

  /** A run from the start: the only worker, told to complete while it waits with nothing to do, is never inactive. */
  lemma {:induction false} ReturnsWithoutInactive() returns (actions: seq<Action>)
    ensures actions == Works(3) + [Order(0, Complete)] + Works(3)
    ensures var w := Run(Start(1, true), actions).workers[0]; w.place.Returned? && !w.flags.inactive
  {
    hide WorkerStep, Run, Steps, Works;
    var p0 := Start(1, true);
    var w0 := NewWorker(true);
    assert p0.workers == [w0];
    FirstWait(w0);
    WorkAlone(p0, 3);
    var w1 := w0.(place := Linking, flags := w0.flags.(running := true));
    RunAppend(p0, Works(3), [Order(0, Complete)]);
    var p2 := Ordered(p0.(workers := [w1]), Complete);
    LastLook(p2.workers[0]);
    WorkAlone(p2, 3);
    RunAppend(p0, Works(3) + [Order(0, Complete)], Works(3));
    actions := Works(3) + [Order(0, Complete)] + Works(3);
  }

  lemma {:induction false} Ordered(p: Pool, command: Command) returns (p': Pool)
    requires |p.workers| == 1 && !command.Cancel?
    ensures p' == p.(workers := [Obey(p.workers[0], command)]) == Run(p, [Order(0, command)])
  {
    hide Obey;
    p' := Step(p, Order(0, command));
    assert [Order(0, command)][1..] == [] && p.dropped + [] == p.dropped;
    assert Run(p, [Order(0, command)]) == Run(p', []);
  }

  lemma {:induction false} FirstWait(w: Worker)
    requires w.place.Starting? && !w.flags.stopped
    ensures Steps(w, [], 3) == (w.(place := Linking, flags := w.flags.(running := true)), [])
  {
    var w1 := w.(place := Head, flags := w.flags.(running := true));
    var w2, w3 := w1.(place := Waiting), w1.(place := Linking);
    assert WorkerStep(w, []) == (w1, 0) && WorkerStep(w1, []) == (w2, 0) && WorkerStep(w2, []) == (w3, 0);
    assert Steps(w, [], 3) == Steps(w1, [], 2) == Steps(w2, [], 1) == Steps(w3, [], 0);
  }

  lemma {:induction false} LastLook(w: Worker)
    requires w.place.Linking? && !w.flags.linked && w.local == []
    ensures Steps(w, [], 3) == (w.(place := Returned), [])
  {
    var w1, w2 := w.(place := Choosing(false)), w.(place := Returned);
    assert WorkerStep(w, []) == (w1, 0) && WorkerStep(w1, []) == (w2, 0) && WorkerStep(w2, []) == (w2, 0);
    assert Steps(w, [], 3) == Steps(w1, [], 2) == Steps(w2, [], 1) == Steps(w2, [], 0);
  }

  /** Steps of the worker, each with the contents of the shared queue at that moment. */
  function Own(w: Worker, exts: seq<seq<Task>>): Worker
    decreases exts
  {
    if exts == [] then w else Own(WorkerStep(w, exts[0]).0, exts[1..])
  }

  /** What the shared queue holds at each of the worker's steps in a run. */
  function Contents(p: Pool, i: nat, actions: seq<Action>): seq<seq<Task>>
    decreases actions
  {
    if actions == [] then []
    else (if actions[0] == Work(i) then [p.ext] else []) + Contents(Step(p, actions[0]), i, actions[1..])
  }

  /** A run without orders to a worker is, to this worker, only its own steps. */
  lemma {:induction false} RunIsOwn(p: Pool, i: nat, actions: seq<Action>)
    requires i < |p.workers| && NoOrderTo(actions, i)
    ensures |Contents(p, i, actions)| == CountWork(actions, i)
    ensures Run(p, actions).workers[i] == Own(p.workers[i], Contents(p, i, actions))
    decreases actions
  {
    hide WorkerStep;
    if actions != [] {
      var p1 := Step(p, actions[0]);
      var rest := Contents(p1, i, actions[1..]);
      RunIsOwn(p1, i, actions[1..]);
      if actions[0] == Work(i) {
        assert ([p.ext] + rest)[1..] == rest;
      } else {
        OthersLeaveAlone(p, i, actions[0]);
        assert [] + rest == rest;
      }
    }
  }

  lemma {:induction false} ReturnedStays(w: Worker, exts: seq<seq<Task>>)
    requires w.place.Returned?
    ensures Own(w, exts) == w
    decreases exts
  {
    if exts != [] { ReturnedStays(w, exts[1..]); }
  }

  lemma {:induction false} BlindReturn(w: Worker, exts: seq<seq<Task>>)
    requires w.place.Starting? && !w.flags.stopped && !w.flags.linked && w.local == [] && |exts| >= 5
    ensures Own(w, exts).place.Returned? && Own(w, exts).flags.inactive == w.flags.inactive
  {
    var w1 := w.(place := Head, flags := w.flags.(running := true));
    var w2, w3 := w1.(place := Waiting), w1.(place := Linking);
    var w4, w5 := w1.(place := Choosing(false)), w1.(place := Returned);
    assert WorkerStep(w, exts[0]).0 == w1 && WorkerStep(w1, exts[1]).0 == w2 && WorkerStep(w2, exts[2]).0 == w3;
    assert WorkerStep(w3, exts[3]).0 == w4 && WorkerStep(w4, exts[4]).0 == w5;
    assert Own(w, exts) == Own(w1, exts[1..]) == Own(w2, exts[1..][1..]) == Own(w3, exts[1..][1..][1..]);
    assert Own(w3, exts[1..][1..][1..]) == Own(w4, exts[1..][1..][1..][1..]) == Own(w5, exts[1..][1..][1..][1..][1..]);
    ReturnedStays(w5, exts[1..][1..][1..][1..][1..]);
  }

  /** A worker told to complete before its thread starts takes itself for running again, and just returns as well. */
  lemma {:induction false} ToldBeforeStart(p: Pool, i: nat, actions: seq<Action>)
    requires i < |p.workers| && NoOrderTo(actions, i) && CountWork(actions, i) >= 5
    requires var w := p.workers[i]; w.place.Starting? && !w.flags.stopped && w.local == []
    ensures var w' := Run(Step(p, Order(i, Complete)), actions).workers[i];
      w'.place.Returned? && w'.flags.inactive == p.workers[i].flags.inactive
  {
    hide Run, Own, Contents;
    var p1 := Step(p, Order(i, Complete));
    RunIsOwn(p1, i, actions);
    BlindReturn(p1.workers[i], Contents(p1, i, actions));
  }

  // ---- the completion in two writes ----

  /** After the first write of the completion, and before the second. */
  function Half(w: Worker): Worker { w.(flags := w.flags.(running := false)) }

  /** After the second write, and the loss of the shared queue. */
  function Second(w: Worker): Worker { w.(flags := w.flags.(wipe := true, linked := false)) }

  /** One of the steps leaves for good with tasks in the queue. */
  predicate LeavesFull(w: Worker, exts: seq<seq<Task>>)
    decreases exts
  {
    exts != [] && ((w.place.Leaving? && w.local != []) || LeavesFull(WorkerStep(w, exts[0]).0, exts[1..]))
  }

  /** Where a worker can be between the two writes. */
  predicate Between(w: Worker) {
    && !w.flags.running && !w.flags.wipe && !w.flags.stopped && !AtGap(w)
    && (InLoop(w) || w.place.Leaving? || AtEnd(w)) && InactiveIsDone(w) && (w.place.Returned? ==> w.local == [])
  }

  predicate Stranded(w: Worker) { w.flags.inactive && w.local != [] }

  lemma {:induction false} BetweenStep(w: Worker, ext: seq<Task>)
    requires Between(w)
    ensures var w' := WorkerStep(w, ext).0;
      Between(w') && (Stranded(w') <==> Stranded(w) || (w.place.Leaving? && w.local != []))
  {
    WorkKeepsInactive(w, ext);
    hide InactiveIsDone;
    if Still(w) { StillBetween(w, ext); } else { BusyBetween(w, ext); }
  }

  lemma {:induction false} StillBetween(w: Worker, ext: seq<Task>)
    requires Between(w) && Still(w) && InactiveIsDone(WorkerStep(w, ext).0)
    ensures var w' := WorkerStep(w, ext).0;
      Between(w') && (Stranded(w') <==> Stranded(w) || (w.place.Leaving? && w.local != []))
  {
    hide PopStep, DrainPopStep, CallStep, AskStep, AddStep, PullStep, LevelWant;
  }

  lemma {:induction false} BusyBetween(w: Worker, ext: seq<Task>)
    requires Between(w) && !Still(w) && InactiveIsDone(WorkerStep(w, ext).0)
    ensures var w' := WorkerStep(w, ext).0; Between(w') && !Stranded(w') && !Stranded(w)
  {
    hide ChooseStep, LevelStep, LeaveStep, DrainStep, PullSize;
  }

  lemma {:induction false} BetweenSteps(w: Worker, exts: seq<seq<Task>>)
    requires Between(w)
    ensures Between(Own(w, exts)) && (Stranded(Own(w, exts)) <==> Stranded(w) || LeavesFull(w, exts))
    decreases exts
  {
    hide WorkerStep, Between, Stranded;
    if exts != [] {
      BetweenStep(w, exts[0]);
      BetweenSteps(WorkerStep(w, exts[0]).0, exts[1..]);
    }
  }

  /**
   Taking the completion as one step matters: when the worker makes steps of its own between the two
   writes, it goes inactive with tasks in its queue, for good, if and only if one of those steps
   leaves with tasks there; in every other case the completion then works as one step does.
   */
  lemma {:induction false} SplitCompletionStrands(w: Worker, exts: seq<seq<Task>>)
    requires InLoop(w) && w.flags.running && !w.flags.wipe && !w.flags.stopped && !AtGap(w) && InactiveIsDone(w)
    ensures var w' := Second(Own(Half(w), exts));
      if LeavesFull(Half(w), exts) then w'.place.Done? && Stranded(w') else Completing(w') && EndOk(w')
  {
    hide WorkerStep;
    BetweenSteps(Half(w), exts);
  }

  /** A pull by level into an empty queue takes something if there is something. */
  predicate PullsWhenEmpty(l: Limits) { l.maxLoad > 0 && CutSize(l, l.middle) > 0 }

  /** Going on to look into its queue, which may end with tasks in it. */
  predicate OnwardStrands(w: Worker, held: bool) {
    if w.local == [] then held else |w.local| > 1 || (held && PullsWhenEmpty(w.limits))
  }

  /** From here the worker can leave with tasks in its queue. */
  predicate CanStrand(w: Worker) {
    match w.place
    case Head => w.local != []
    case Leaving => w.local != []
    case Waiting => OnwardStrands(w, w.flags.linked)
    case Linking => OnwardStrands(w, w.flags.linked)
    case Choosing(held) => OnwardStrands(w, held)
    case Popping(held) => OnwardStrands(w, held)
    case Executing(_, held, _) => w.local != [] || (held && PullsWhenEmpty(w.limits))
    case Leveling(held) => w.local != [] || (held && PullsWhenEmpty(w.limits))
    case Asking => true
    case Adding(batch, thenLevel) => w.local != [] || batch != [] || (thenLevel && PullsWhenEmpty(w.limits))
    case Pulling(want) => w.local != [] || CutSize(w.limits, want) > 0
    case _ => false
  }

  /** No contents of the shared queue lead from a place that cannot strand to one that can. */
  lemma {:induction false} StrandsOnlyFrom(w: Worker, ext: seq<Task>)
    requires Between(w) && CanStrand(WorkerStep(w, ext).0)
    ensures CanStrand(w)
  {
  }

  lemma {:induction false} FullIsStranding(w: Worker, exts: seq<seq<Task>>)
    requires Between(w) && LeavesFull(w, exts)
    ensures CanStrand(w)
    decreases exts
  {
    hide WorkerStep, Between;
    if !(w.place.Leaving? && w.local != []) {
      BetweenStep(w, exts[0]);
      FullIsStranding(WorkerStep(w, exts[0]).0, exts[1..]);
      StrandsOnlyFrom(w, exts[0]);
    }
  }

  /** With one task in the shared queue, a place that can strand is followed by one that can. */
  lemma {:induction false} StrandsOn(w: Worker, ext: seq<Task>)
    requires Between(w) && CanStrand(w) && !w.place.Leaving? && |ext| == 1
    ensures CanStrand(WorkerStep(w, ext).0) && Fuel(WorkerStep(w, ext).0) < Fuel(w)
  {
  }

  lemma {:induction false} StrandingIsFull(w: Worker) returns (exts: seq<seq<Task>>)
    requires Between(w) && CanStrand(w)
    ensures LeavesFull(w, exts)
    decreases Fuel(w)
  {
    hide WorkerStep, Between, Fuel;
    if w.place.Leaving? {
      exts := [[]];
    } else {
      StrandsOn(w, [0]);
      BetweenStep(w, [0]);
      var rest := StrandingIsFull(WorkerStep(w, [0]).0);
      exts := [[0]] + rest;
      assert exts[1..] == rest;
    }
  }

  /** A split completion can strand tasks exactly from the places and queues CanStrand lists. */
  lemma {:induction false} SplitCanStrandIff(w: Worker)
    requires InLoop(w) && w.flags.running && !w.flags.wipe && !w.flags.stopped && !AtGap(w) && InactiveIsDone(w)
    ensures (exists exts :: Stranded(Second(Own(Half(w), exts)))) <==> CanStrand(w)
  {
    hide WorkerStep, LeavesFull, CanStrand, Own;
    HalfStrands(w);
    if CanStrand(w) {
      var exts := StrandingIsFull(Half(w));
      SplitCompletionStrands(w, exts);
    }
    if exts :| Stranded(Second(Own(Half(w), exts))) {
      BetweenSteps(Half(w), exts);
      FullIsStranding(Half(w), exts);
    }
  }

  lemma {:induction false} HalfStrands(w: Worker)
    ensures CanStrand(Half(w)) <==> CanStrand(w)
  {
  }
}
