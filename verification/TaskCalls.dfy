/**
 How often a task is called.  Without cancellation every task is called exactly once; with it, a
 task is called twice exactly when a worker's queue is emptied between its look and its pop.
 */
module TaskCalls {
  import opened TaskPool
  import opened TaskSafety

  /** All calls begun, first ones and others. */
  function Begun(w: Worker): seq<Task> { w.executed + InFlight(w) + Repeated(w) }

  function AllBegun(workers: seq<Worker>): multiset<Task> {
    if workers == [] then multiset{} else multiset(Begun(workers[0])) + AllBegun(workers[1..])
  }

  /** No call was made again and none threw. */
  predicate Unharmed(w: Worker) { Repeated(w) == [] && !w.place.Threw? }

  predicate AllUnharmed(workers: seq<Worker>) { forall i :: 0 <= i < |workers| ==> Unharmed(workers[i]) }

  /** No step of the run pops from a queue that was emptied after the look into it. */
  predicate Faultless(p: Pool, actions: seq<Action>)
    decreases actions
  {
    actions == []
    || (!(actions[0].Work? && actions[0].i < |p.workers| && AtGap(p.workers[actions[0].i]))
        && Faultless(Step(p, actions[0]), actions[1..]))
  }

  lemma {:induction false} OrderHarmless(w: Worker, command: Command)
    ensures Repeated(Obey(w, command)) == Repeated(w) && Obey(w, command).place == w.place
  {
  }

  /** Only a pop in the gap does harm, and harm stays. */
  lemma {:induction false} StepHarm(p: Pool, a: Action)
    ensures !AllUnharmed(p.workers) ==> !AllUnharmed(Step(p, a).workers)
    ensures AllUnharmed(p.workers) ==>
      (AllUnharmed(Step(p, a).workers) <==> !(a.Work? && a.i < |p.workers| && AtGap(p.workers[a.i])))
  {
    hide WorkerStep, Obey, Repeated, AtGap;
    var p' := Step(p, a);
    match a
    case Submit =>
    case Work(i) =>
      if i < |p.workers| {
        RepeatsIff(p.workers[i], p.ext);
        WorkGrowsRepeated(p.workers[i], p.ext);
        assert forall j :: 0 <= j < |p.workers| && j != i ==> p'.workers[j] == p.workers[j];
        assert p'.workers[i] == WorkerStep(p.workers[i], p.ext).0;
      }
    case Order(i, command) =>
      if i < |p.workers| {
        OrderHarmless(p.workers[i], command);
        assert forall j :: 0 <= j < |p.workers| && j != i ==> p'.workers[j] == p.workers[j];
        assert p'.workers[i] == Obey(p.workers[i], command);
      }
  }

  lemma {:induction false} WorkGrowsRepeated(w: Worker, ext: seq<Task>)
    ensures |Repeated(WorkerStep(w, ext).0)| >= |Repeated(w)|
  {
    hide WorkerStep, Repeated;
    RepeatsIff(w, ext);
  }

  lemma {:induction false} HarmStays(p: Pool, actions: seq<Action>)
    requires !AllUnharmed(p.workers)
    ensures !AllUnharmed(Run(p, actions).workers)
    decreases actions
  {
    hide Step, AllUnharmed;
    if actions != [] {
      StepHarm(p, actions[0]);
      HarmStays(Step(p, actions[0]), actions[1..]);
    }
  }

  lemma {:induction false} UnharmedIff(p: Pool, actions: seq<Action>)
    requires AllUnharmed(p.workers)
    ensures AllUnharmed(Run(p, actions).workers) <==> Faultless(p, actions)
    decreases actions
  {
    hide Step, AllUnharmed, AtGap;
    if actions != [] {
      StepHarm(p, actions[0]);
      if AllUnharmed(Step(p, actions[0]).workers) {
        UnharmedIff(Step(p, actions[0]), actions[1..]);
      } else {
        HarmStays(Step(p, actions[0]), actions[1..]);
      }
    }
  }

  lemma {:induction false} BegunOne(workers: seq<Worker>, i: nat)
    requires i < |workers|
    ensures multiset(Begun(workers[i])) <= AllBegun(workers)
    decreases workers
  {
    hide Begun;
    if i > 0 { BegunOne(workers[1..], i - 1); }
  }

  lemma {:induction false} UnharmedBegun(workers: seq<Worker>)
    requires AllUnharmed(workers)
    ensures AllBegun(workers) <= AllTaken(workers)
    decreases workers
  {
    if workers != [] {
      var w := workers[0];
      assert Unharmed(w);
      assert Begun(w) == w.executed + InFlight(w);
      assert multiset(Taken(w)) == multiset(Begun(w)) + multiset(w.local + Batch(w)) by {
        assert Taken(w) == Begun(w) + (w.local + Batch(w));
      }
      UnharmedBegun(workers[1..]);
    }
  }

  /** A worker that called something again has called it at least twice. */
  lemma {:induction false} HarmCounts(w: Worker)
    requires MemoryOk(w) && Repeated(w) != []
    ensures multiset(Begun(w))[Repeated(w)[0]] >= 2
  {
    var t := Repeated(w)[0];
    assert t in w.executed && t in Repeated(w);
    assert multiset(Begun(w)) == multiset(w.executed) + multiset(InFlight(w)) + multiset(Repeated(w));
  }

  /** No task has been called more than once, and no call threw. */
  ghost predicate CalledOnce(p: Pool) {
    (forall t: Task :: AllBegun(p.workers)[t] <= 1) && forall i :: 0 <= i < |p.workers| ==> !p.workers[i].place.Threw?
  }

  lemma {:induction false} CalledOnceIsUnharmed(p: Pool)
    requires Inv(p)
    ensures CalledOnce(p) <==> AllUnharmed(p.workers)
  {
    hide AllBegun, AllTaken, Begun, Taken, Repeated, MemoryOk, FlagsOk;
    if AllUnharmed(p.workers) {
      UnharmedBegun(p.workers);
      forall t: Task ensures AllBegun(p.workers)[t] <= 1 {
        assert (AllTaken(p.workers) + multiset(p.dropped))[t] == if t < Left(p) then 1 else 0;
      }
    } else {
      var i :| 0 <= i < |p.workers| && !Unharmed(p.workers[i]);
      if Repeated(p.workers[i]) != [] {
        assert WorkerOk(p.workers[i], Left(p));
        HarmCounts(p.workers[i]);
        BegunOne(p.workers, i);
        assert AllBegun(p.workers)[Repeated(p.workers[i])[0]] >= 2;
      }
    }
  }

  /**
   Over any run, with any commands: no task is called twice and no call throws if and only if no pop
   is made from a queue that was emptied after the look into it.
   */
  lemma {:induction false} CalledOnceIff(n: nat, linked: bool, actions: seq<Action>)
    ensures CalledOnce(Run(Start(n, linked), actions)) <==> Faultless(Start(n, linked), actions)
  {
    hide CalledOnce, Faultless, Run, Inv;
    StartInv(n, linked);
    RunKeepsInv(Start(n, linked), actions);
    CalledOnceIsUnharmed(Run(Start(n, linked), actions));
    assert AllUnharmed(Start(n, linked).workers);
    UnharmedIff(Start(n, linked), actions);
  }

  // ---- without cancellation ----

  predicate NoneAtGap(workers: seq<Worker>) { forall i :: 0 <= i < |workers| ==> !AtGap(workers[i]) }

  lemma {:induction false} StepOffGap(p: Pool, a: Action)
    requires NoneAtGap(p.workers) && (a.Order? ==> !a.command.Cancel?)
    ensures NoneAtGap(Step(p, a).workers)
  {
    hide WorkerStep, Obey, AtGap;
    match a
    case Submit =>
    case Work(i) => if i < |p.workers| { WorkOffGap(p.workers[i], p.ext); }
    case Order(i, command) => if i < |p.workers| { OrderOffGap(p.workers[i], command); }
  }

  lemma {:induction false} WorkOffGap(w: Worker, ext: seq<Task>)
    requires !AtGap(w)
    ensures !AtGap(WorkerStep(w, ext).0)
  {
    hide LevelWant, PullSize;
  }

  lemma {:induction false} OrderOffGap(w: Worker, command: Command)
    requires !AtGap(w) && !command.Cancel?
    ensures !AtGap(Obey(w, command))
  {
  }

  lemma {:induction false} NoCancelFaultless(p: Pool, actions: seq<Action>)
    requires NoneAtGap(p.workers) && NoCancel(actions)
    ensures Faultless(p, actions)
    decreases actions
  {
    hide Step, AtGap;
    if actions != [] {
      StepOffGap(p, actions[0]);
      NoCancelFaultless(Step(p, actions[0]), actions[1..]);
    }
  }

  lemma {:induction false} IdleBegun(workers: seq<Worker>)
    requires forall i :: 0 <= i < |workers| ==> Idle(workers[i]) && Unharmed(workers[i])
    ensures AllTaken(workers) == AllBegun(workers)
    decreases workers
  {
    if workers != [] {
      var w := workers[0];
      assert Idle(w) && Unharmed(w);
      assert Taken(w) == w.executed == Begun(w);
      IdleBegun(workers[1..]);
    }
  }

  /**
   Exactly once: without cancellation, when the shared queue is empty and every worker idle,
   every submitted task has been called once, and nothing else has.
   */
  lemma {:induction false} ExactlyOnce(n: nat, linked: bool, actions: seq<Action>)
    requires NoCancel(actions)
    requires var p := Run(Start(n, linked), actions);
      p.ext == [] && forall i :: 0 <= i < |p.workers| ==> Idle(p.workers[i])
    ensures var p := Run(Start(n, linked), actions);
      forall t: Task :: AllBegun(p.workers)[t] == if t < p.submitted then 1 else 0
  {
    hide AllBegun, AllTaken, WorkerOk, Faultless, Run, Idle;
    var start := Start(n, linked);
    StartInv(n, linked);
    RunKeepsInv(start, actions);
    NoCancelDropsNothing(start, actions);
    NoCancelFaultless(start, actions);
    UnharmedIff(start, actions);
    var p := Run(start, actions);
    IdleBegun(p.workers);
    forall t: Task ensures AllBegun(p.workers)[t] == if t < p.submitted then 1 else 0 {
      assert (AllTaken(p.workers) + multiset(p.dropped))[t] == if t < Left(p) then 1 else 0;
    }
  }
}
