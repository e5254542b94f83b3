/**
 What every run of the workers keeps, whatever is submitted and ordered: each submission is in
 exactly one place, and each worker works in submission order.
 */
module TaskSafety {
  import opened Multisets
  import opened TaskPool

  function AllTaken(workers: seq<Worker>): multiset<Task> {
    if workers == [] then multiset{} else multiset(Taken(workers[0])) + AllTaken(workers[1..])
  }

  predicate Increasing(s: seq<Task>) { forall i, j :: 0 <= i < j < |s| ==> s[i] < s[j] }

  /** How many tasks have left the shared queue. */
  function Left(p: Pool): int { p.submitted - |p.ext| }

  predicate AtEnd(w: Worker) { w.place.Done? || w.place.Returned? }

  /** The thread has left its loop, or was ended by a call that threw. */
  predicate Ending(w: Worker) {
    w.place.Leaving? || w.place.Draining? || w.place.DrainPopping? || w.place.DrainExecuting? || w.place.Threw? || AtEnd(w)
  }

  predicate Idle(w: Worker) { InFlight(w) == [] && Again(w) == [] && w.local == [] && Batch(w) == [] }

  predicate Finishing(w: Worker) {
    w.place.Leaving? || w.place.Draining? || w.place.DrainPopping? || w.place.DrainExecuting?
  }

  /** An inactive worker has ended, with nothing left unless it was cancelled; completion sets both its flags. */
  predicate FlagsOk(w: Worker) {
    && (w.flags.inactive && !w.flags.cancelled ==> Idle(w))
    && (w.flags.inactive ==> w.place.Done?)
    && (!w.flags.running && !w.place.Starting? && !w.flags.cancelled ==> w.flags.wipe)
    && (Finishing(w) && !w.flags.cancelled ==> !w.flags.running && w.flags.wipe)
  }

  predicate WorkerOk(w: Worker, left: int) {
    Increasing(Taken(w)) && (forall t :: t in Taken(w) ==> t < left) && FlagsOk(w) && MemoryOk(w)
  }

  /**
   The invariant: the shared queue holds the last submissions in order; every earlier
   submission is in exactly one worker's hands, first called once or still to be, or was dropped;
   each worker's tasks are in submission order; what it called again it had called before; an
   inactive worker that was not cancelled has nothing left.
   */
  ghost predicate Inv(p: Pool) {
    && Left(p) >= 0
    && (forall i :: 0 <= i < |p.ext| ==> p.ext[i] == Left(p) + i)
    && (forall i :: 0 <= i < |p.workers| ==> WorkerOk(p.workers[i], Left(p)))
    && (forall t: Task :: (AllTaken(p.workers) + multiset(p.dropped))[t] == if t < Left(p) then 1 else 0)
  }

  lemma {:induction false} AllTakenUpdate(workers: seq<Worker>, i: nat, w: Worker)
    requires i < |workers|
    ensures AllTaken(workers[i := w]) + multiset(Taken(workers[i])) == AllTaken(workers) + multiset(Taken(w))
    decreases workers
  {
    hide Taken;
    if i == 0 {
      assert workers[0 := w][1..] == workers[1..];
    } else {
      assert workers[i := w][1..] == workers[1..][i - 1 := w];
      AllTakenUpdate(workers[1..], i - 1, w);
      Exchange(multiset(Taken(workers[0])), AllTaken(workers[1..][i - 1 := w]), AllTaken(workers[1..]),
               multiset(Taken(workers[i])), multiset(Taken(w)));
    }
  }

  lemma {:induction false} AllTakenStart(n: nat, linked: bool)
    ensures AllTaken(seq(n, _ => NewWorker(linked))) == multiset{}
  {
    if n > 0 {
      assert seq(n, _ => NewWorker(linked))[1..] == seq(n - 1, _ => NewWorker(linked));
      AllTakenStart(n - 1, linked);
    }
  }

  lemma {:induction false} StartInv(n: nat, linked: bool)
    ensures Inv(Start(n, linked))
  {
    hide AllTaken;
    AllTakenStart(n, linked);
  }

  lemma {:induction false} EndingKeepsFlags(w: Worker, ext: seq<Task>)
    requires FlagsOk(w) && Ending(w)
    ensures FlagsOk(WorkerStep(w, ext).0)
  {
    hide ChooseStep, PopStep, AskStep, AddStep, LevelStep, PullStep;
  }

  /** In the loop the flags but `running` stay, and only its head leaves it, or a call that throws. */
  ghost predicate KeepsLooping(w: Worker, w': Worker) {
    && w'.flags.inactive == w.flags.inactive && w'.flags.wipe == w.flags.wipe && w'.flags.cancelled == w.flags.cancelled
    && !w'.place.Starting? && (w'.flags.running == w.flags.running || w.place.Starting?)
    && (w.place.Starting? ==> w'.flags.running)
    && (Ending(w') ==>
          w'.place.Returned? || w'.place.Threw? || (w'.place.Leaving? && !w.flags.running && w.place.Head?))
  }

  lemma {:induction false} LoopingKeepsFlags(w: Worker, ext: seq<Task>)
    requires !Ending(w)
    ensures KeepsLooping(w, WorkerStep(w, ext).0)
  {
    hide LevelWant, PullSize, DrainStep, DrainPopStep, LeaveStep;
  }

  lemma {:induction false} WorkKeepsFlags(w: Worker, ext: seq<Task>)
    requires FlagsOk(w)
    ensures FlagsOk(WorkerStep(w, ext).0)
  {
    if Ending(w) {
      EndingKeepsFlags(w, ext);
    } else {
      hide WorkerStep;
      LoopingKeepsFlags(w, ext);
    }
  }

  lemma {:induction false} WorkKeepsInv(p: Pool, i: nat)
    requires Inv(p) && i < |p.workers|
    ensures Inv(Step(p, Work(i)))
  {
    hide WorkerStep, Taken, AllTaken, FlagsOk, MemoryOk;
    var w := p.workers[i];
    var (w', n) := WorkerStep(w, p.ext);
    var popped := p.ext[..n];
    WorkerStepMoves(w, p.ext);
    var p' := Step(p, Work(i));
    WorkKeepsFlags(w, p.ext);
    WorkKeepsMemory(w, p.ext);
    AllTakenUpdate(p.workers, i, w');
    TakenGrows(w, w', popped, p.ext, Left(p));
    PoppedCounts(popped, Left(p));
    forall t: Task
      ensures (AllTaken(p'.workers) + multiset(p'.dropped))[t] == if t < Left(p') then 1 else 0
    {
      assert (AllTaken(p'.workers) + multiset(Taken(w)))[t] == (AllTaken(p.workers) + multiset(Taken(w) + popped))[t];
      assert (AllTaken(p.workers) + multiset(p.dropped))[t] == if t < Left(p) then 1 else 0;
    }
    forall j | 0 <= j < |p'.workers| ensures WorkerOk(p'.workers[j], Left(p')) {
      if j != i { assert WorkerOk(p.workers[j], Left(p)); }
    }
  }

  lemma {:induction false} TakenGrows(w: Worker, w': Worker, popped: seq<Task>, ext: seq<Task>, left: int)
    requires Increasing(Taken(w)) && (forall t :: t in Taken(w) ==> t < left) && left >= 0
    requires |popped| <= |ext| && popped == ext[..|popped|] && forall i :: 0 <= i < |ext| ==> ext[i] == left + i
    requires Taken(w') == Taken(w) + popped
    ensures Increasing(Taken(w')) && (forall t :: t in Taken(w') ==> t < left + |popped|)
    ensures forall i :: 0 <= i < |popped| ==> popped[i] == left + i
  {
    hide Taken;
    var s, s' := Taken(w), Taken(w');
    assert forall i :: 0 <= i < |popped| ==> popped[i] == ext[i];
    forall i, j | 0 <= i < j < |s'| ensures s'[i] < s'[j] {
      assert i < |s| ==> s'[i] == s[i] && s[i] in s;
      assert i >= |s| ==> s'[i] == popped[i - |s|];
      assert j < |s| ==> s'[j] == s[j];
      assert j >= |s| ==> s'[j] == popped[j - |s|];
    }
  }

  /** A run of consecutive numbers holds each of them once. */
  lemma {:induction false} PoppedCounts(popped: seq<Task>, left: int)
    requires left >= 0 && forall i :: 0 <= i < |popped| ==> popped[i] == left + i
    ensures forall t: Task :: multiset(popped)[t] == if left <= t < left + |popped| then 1 else 0
    decreases popped
  {
    if popped != [] {
      var n := |popped| - 1;
      PoppedCounts(popped[..n], left);
      assert popped == popped[..n] + [popped[n]];
    }
  }

  lemma {:induction false} OrderKeepsMemory(w: Worker, command: Command)
    requires MemoryOk(w)
    ensures MemoryOk(Obey(w, command))
  {
    var w' := Obey(w, command);
    assert InFlight(w') == InFlight(w) && Again(w') == Again(w);
    MemoryKept(w, w');
  }

  lemma {:induction false} OrderKeepsWorker(w: Worker, command: Command, left: int)
    requires WorkerOk(w, left)
    ensures WorkerOk(Obey(w, command), left)
    ensures multiset(Taken(w)) == multiset(Taken(Obey(w, command))) + multiset(Lost(w, command))
  {
    OrderKeepsMemory(w, command);
    hide MemoryOk;
    if command.Cancel? {
      CancelShrinks(w, Obey(w, command));
      SublistOk(w, Obey(w, command), left);
    } else {
      assert Taken(Obey(w, command)) == Taken(w);
    }
  }

  lemma {:induction false} OrderKeepsInv(p: Pool, i: nat, command: Command)
    requires Inv(p) && i < |p.workers|
    ensures Inv(Step(p, Order(i, command)))
  {
    hide AllTaken, Taken, WorkerOk, Obey;
    var w := p.workers[i];
    var w' := Obey(w, command);
    var p' := Step(p, Order(i, command));
    assert p'.dropped == p.dropped + Lost(w, command);
    AllTakenUpdate(p.workers, i, w');
    OrderKeepsWorker(w, command, Left(p));
    forall t: Task ensures (AllTaken(p'.workers) + multiset(p'.dropped))[t] == if t < Left(p') then 1 else 0 {
      assert (AllTaken(p'.workers) + multiset(Taken(w)))[t] == (AllTaken(p.workers) + multiset(Taken(w')))[t];
      assert multiset(p.dropped + Lost(w, command))[t] == multiset(p.dropped)[t] + multiset(Lost(w, command))[t];
      assert (AllTaken(p.workers) + multiset(p.dropped))[t] == if t < Left(p) then 1 else 0;
    }
    forall j | 0 <= j < |p'.workers| ensures WorkerOk(p'.workers[j], Left(p')) {
      if j != i { assert WorkerOk(p.workers[j], Left(p)); }
    }
  }

  lemma {:induction false} CancelShrinks(w: Worker, w': Worker)
    requires w' == Obey(w, Cancel)
    ensures Taken(w') == w.executed + InFlight(w) + Batch(w)
    ensures multiset(Taken(w)) == multiset(Taken(w')) + multiset(w.local)
  {
    assert w.executed + InFlight(w) + [] == w.executed + InFlight(w);
  }

  lemma {:induction false} SublistOk(w: Worker, w': Worker, left: int)
    requires WorkerOk(w, left) && w' == Obey(w, Cancel) && Taken(w') == w.executed + InFlight(w) + Batch(w)
    ensures WorkerOk(w', left)
  {
    OrderKeepsMemory(w, Cancel);
    hide MemoryOk;
    var s, s' := Taken(w), Taken(w');
    var a, n := |w.executed| + |InFlight(w)|, |w.local|;
    forall i | 0 <= i < |s'| ensures s'[i] == s[if i < a then i else i + n] {
    }
    assert forall t :: t in s' ==> t in s;
  }

  lemma {:induction false} SubmitKeepsInv(p: Pool)
    requires Inv(p)
    ensures Inv(Step(p, Submit))
  {
    hide WorkerOk, AllTaken;
  }

  /**
   In every reachable state each submission is in exactly one place, each worker works in order, and
   no call is made again of a task that was not called before.
   */
  lemma {:induction false} RunKeepsInv(p: Pool, actions: seq<Action>)
    requires Inv(p)
    ensures Inv(Run(p, actions))
    decreases actions
  {
    hide Inv;
    if actions != [] {
      match actions[0] {
        case Submit => SubmitKeepsInv(p);
        case Work(i) => if i < |p.workers| { WorkKeepsInv(p, i); }
        case Order(i, command) => if i < |p.workers| { OrderKeepsInv(p, i, command); }
      }
      RunKeepsInv(Step(p, actions[0]), actions[1..]);
    }
  }

  predicate NoCancel(actions: seq<Action>) {
    forall i :: 0 <= i < |actions| && actions[i].Order? ==> !actions[i].command.Cancel?
  }

  lemma {:induction false} NoCancelDropsNothing(p: Pool, actions: seq<Action>)
    requires NoCancel(actions)
    ensures Run(p, actions).dropped == p.dropped
    decreases actions
  {
    if actions != [] {
      assert p.dropped + [] == p.dropped;
      NoCancelDropsNothing(Step(p, actions[0]), actions[1..]);
    }
  }
}
