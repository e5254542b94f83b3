/**
 Runs of one worker with nobody else moving, and the run in which a cancellation makes it call a
 task twice.
 */
module TaskRuns {
  import opened TaskPool
  import opened TaskCalls

  function Works(k: nat): seq<Action> { seq(k, _ => Work(0)) }

  /** Consecutive steps of one worker with nobody else at the shared queue. */
  function Steps(w: Worker, ext: seq<Task>, k: nat): (Worker, seq<Task>)
    decreases k
  {
    if k == 0 then (w, ext)
    else
      var (w1, n) := WorkerStep(w, ext);
      Steps(w1, ext[n..], k - 1)
  }

  lemma {:induction false} RunAppend(p: Pool, a: seq<Action>, b: seq<Action>)
    ensures Run(p, a + b) == Run(Run(p, a), b)
    decreases a
  {
    hide Step;
    if a == [] {
      assert a + b == b;
    } else {
      assert (a + b)[1..] == a[1..] + b;
      RunAppend(Step(p, a[0]), a[1..], b);
    }
  }

  /** A run in which only the one worker moves. */
  lemma {:induction false} WorkAlone(p: Pool, k: nat)
    requires |p.workers| == 1
    ensures var (w, ext) := Steps(p.workers[0], p.ext, k);
      Run(p, Works(k)) == p.(ext := ext, workers := [w])
    decreases k
  {
    hide WorkerStep;
    if k == 0 {
      assert p.workers == [p.workers[0]];
    } else {
      assert Works(k)[1..] == Works(k - 1);
      WorkAlone(Step(p, Work(0)), k - 1);
    }
  }

  lemma {:induction false} AddingRound(w: Worker, ext: seq<Task>, batch: seq<Task>, thenLevel: bool)
    requires w.place == Adding(batch, thenLevel)
    ensures Steps(w, ext, |batch| + 1)
         == (w.(place := if thenLevel then Leveling(true) else Head, local := w.local + batch), ext)
    decreases batch
  {
    assert ext[0..] == ext;
    var w1 := WorkerStep(w, ext).0;
    if batch == [] {
      assert w.local + [] == w.local;
      assert Steps(w, ext, 1) == Steps(w1, ext, 0);
    } else {
      AddingRound(w1, ext, batch[1..], thenLevel);
      assert w.local + [batch[0]] + batch[1..] == w.local + batch;
    }
  }

  lemma {:induction false} StepsAdd(w: Worker, ext: seq<Task>, k: nat, m: nat)
    ensures var (w1, ext1) := Steps(w, ext, k); Steps(w, ext, k + m) == Steps(w1, ext1, m)
    decreases k
  {
    hide WorkerStep;
    if k > 0 {
      var (w1, n) := WorkerStep(w, ext);
      StepsAdd(w1, ext[n..], k - 1, m);
    }
  }

  /** How many steps a pull by level takes. */
  function LevelSteps(w: Worker, have: nat): nat {
    if LevelWant(w) == 0 then 1 else PullSize(w.limits, LevelWant(w), have) + 3
  }

  /** A pull by level, undisturbed: the batch ends up behind the worker's own tasks. */
  lemma {:induction false} LevelRound(w: Worker, ext: seq<Task>)
    requires w.place == Leveling(true)
    ensures var n := PullSize(w.limits, LevelWant(w), |ext|);
      Steps(w, ext, LevelSteps(w, |ext|)) == (w.(place := Head, local := w.local + ext[..n]), ext[n..])
  {
    hide PullSize, LevelWant;
    var want := LevelWant(w);
    var n := PullSize(w.limits, want, |ext|);
    var w1 := WorkerStep(w, ext).0;
    assert ext[0..] == ext;
    if want == 0 {
      assert n == 0 by { NoPull(w.limits, |ext|); }
      assert w.local + ext[..0] == w.local;
      assert Steps(w, ext, 1) == Steps(w1, ext, 0);
    } else {
      var w2 := WorkerStep(w1, ext).0;
      assert w2 == w.(place := Adding(ext[..n], false));
      AddingRound(w2, ext[n..], ext[..n], false);
      assert Steps(w, ext, n + 3) == Steps(w1, ext, n + 2) == Steps(w2, ext[n..], n + 1);
    }
  }

  lemma {:induction false} NoPull(l: Limits, have: nat)
    ensures PullSize(l, 0, have) == 0
  {
  }

  /** So many are taken when `want` are asked for: all of them, unless fewer are there or the batch is cut. */
  predicate Takes(n: nat, want: nat, maxLoad: nat, have: nat) {
    && n <= want && n <= have && (want > 1 ==> 2 * n <= maxLoad)
    && (n == want || n == have || (want > 1 && 2 * (n + 1) > maxLoad))
  }

  lemma {:induction false} PullTakes(l: Limits, want: nat, have: nat)
    ensures Takes(PullSize(l, want, have), want, l.maxLoad, have)
  {
  }

  /**
   A pull by level, undisturbed, in numbers.  With four fifths of the largest load or more of its own
   the worker takes nothing; with a fifth or more it takes the light batch, and below that the middle
   one, as far as the shared queue and half the largest load allow.
   */
  lemma {:induction false} LevelBands(w: Worker, ext: seq<Task>) returns (k: nat, n: nat)
    requires w.place == Leveling(true)
    ensures n <= |ext| && Steps(w, ext, k) == (w.(place := Head, local := w.local + ext[..n]), ext[n..])
    ensures 5 * |w.local| >= 4 * w.limits.maxLoad ==> n == 0
    ensures w.limits.maxLoad <= 5 * |w.local| < 4 * w.limits.maxLoad ==> Takes(n, w.limits.light, w.limits.maxLoad, |ext|)
    ensures 5 * |w.local| < w.limits.maxLoad ==> Takes(n, w.limits.middle, w.limits.maxLoad, |ext|)
  {
    hide Steps;
    LevelRound(w, ext);
    k, n := LevelSteps(w, |ext|), PullSize(w.limits, LevelWant(w), |ext|);
    PullTakes(w.limits, LevelWant(w), |ext|);
  }

  /** From the head of its loop with tasks of its own, a running worker calls the first and goes to pull. */
  lemma {:induction false} CallRound(w: Worker, ext: seq<Task>)
    requires w.place.Head? && w.flags.running && !w.flags.stopped && w.local != []
    ensures Steps(w, ext, 4) == (w.(place := Popping(w.flags.linked)), ext)
    ensures Steps(w, ext, 6) == (w.(place := Leveling(w.flags.linked), local := w.local[1..],
      executed := w.executed + [w.local[0]], memory := w.memory.(last := Some(w.local[0]))), ext)
  {
    assert ext[0..] == ext;
    var held := w.flags.linked;
    var w1, w2, w3, w4 := w.(place := Waiting), w.(place := Linking), w.(place := Choosing(held)), w.(place := Popping(held));
    assert WorkerStep(w, ext) == (w1, 0) && WorkerStep(w1, ext) == (w2, 0) && WorkerStep(w2, ext) == (w3, 0)
      && WorkerStep(w3, ext) == (w4, 0);
    assert Steps(w, ext, 4) == Steps(w1, ext, 3) == Steps(w2, ext, 2) == Steps(w3, ext, 1) == Steps(w4, ext, 0);
    var w5 := WorkerStep(w4, ext).0;
    var w6 := WorkerStep(w5, ext).0;
    assert Steps(w4, ext, 2) == Steps(w5, ext, 1) == Steps(w6, ext, 0);
    StepsAdd(w, ext, 4, 2);
  }

  /** A new worker with something to ask for takes the first task and goes to pull by level. */
  lemma {:induction false} StartRound(w: Worker, ext: seq<Task>)
    requires w.place.Starting? && !w.flags.stopped && w.flags.linked && w.local == [] && ext != []
    ensures Steps(w, ext, 8)
         == (w.(place := Leveling(true), flags := w.flags.(running := true), local := [ext[0]]), ext[1..])
  {
    assert ext[0..] == ext;
    var w1 := w.(place := Head, flags := w.flags.(running := true));
    var w2, w3, w4, w5 := w1.(place := Waiting), w1.(place := Linking), w1.(place := Choosing(true)), w1.(place := Asking);
    var w6 := w1.(place := Adding([ext[0]], true));
    assert WorkerStep(w, ext) == (w1, 0) && WorkerStep(w1, ext) == (w2, 0) && WorkerStep(w2, ext) == (w3, 0);
    assert WorkerStep(w3, ext) == (w4, 0) && WorkerStep(w4, ext) == (w5, 0) && WorkerStep(w5, ext) == (w6, 1);
    assert Steps(w, ext, 6) == Steps(w1, ext, 5) == Steps(w2, ext, 4) == Steps(w3, ext, 3);
    assert Steps(w3, ext, 3) == Steps(w4, ext, 2) == Steps(w5, ext, 1) == Steps(w6, ext[1..], 0);
    AddingRound(w6, ext[1..], [ext[0]], true);
    assert [] + [ext[0]] == [ext[0]];
    StepsAdd(w, ext, 6, 2);
  }

  /** From any state: a cancellation between a worker's look and its pop makes it call its last task again, or throw. */
  lemma {:induction false} CancelInGap(p: Pool, i: nat)
    requires i < |p.workers| && (p.workers[i].place.Popping? || p.workers[i].place.DrainPopping?)
    ensures var w, w' := p.workers[i], Run(p, [Order(i, Cancel), Work(i)]).workers[i];
      if w.memory.last.Some? then Repeated(w') == Repeated(w) + [w.memory.last.value] else w'.place.Threw?
  {
    hide WorkerStep, Repeated;
    var w1 := Obey(p.workers[i], Cancel);
    var p1 := Step(p, Order(i, Cancel));
    OrderHarmless(p.workers[i], Cancel);
    RepeatsIff(w1, p1.ext);
    assert [Order(i, Cancel), Work(i)][1..] == [Work(i)] && [Work(i)][1..] == [];
    assert Run(p, [Order(i, Cancel), Work(i)]) == Run(p1, [Work(i)]) == Run(Step(p1, Work(i)), []);
  }

  /** Two submissions; the worker calls the first, looks at the second, is cancelled, and calls the first again. */
  lemma {:induction false} CancelledTaskTwice() returns (actions: seq<Action>)
    ensures var p := Run(Start(1, true), actions);
      && p.dropped == [1] && p.workers[0].executed == [0] && Repeated(p.workers[0]) == [0] && !CalledOnce(p)
  {
    hide WorkerStep, Run, Steps, Works, CalledOnce;
    var p1 := TwoSubmitted();
    var w, k := ReachesPop(NewWorker(true));
    WorkAlone(p1, k);
    var p2 := Pool([], [w], 2, []);
    actions := [Submit, Submit] + (Works(k) + [Order(0, Cancel), Work(0)]);
    RunAppend(Start(1, true), [Submit, Submit], Works(k) + [Order(0, Cancel), Work(0)]);
    RunAppend(p1, Works(k), [Order(0, Cancel), Work(0)]);
    CancelledThere(p2);
  }

  lemma {:induction false} TwoSubmitted() returns (p: Pool)
    ensures p == Pool([0, 1], [NewWorker(true)], 2, []) == Run(Start(1, true), [Submit, Submit])
  {
    var start := Start(1, true);
    p := Pool([0, 1], [NewWorker(true)], 2, []);
    assert [Submit, Submit][1..] == [Submit] && [Submit][1..] == [];
    assert start.workers == [NewWorker(true)];
    assert Step(start, Submit) == Pool([0], [NewWorker(true)], 1, []);
    assert Step(Step(start, Submit), Submit) == p;
    assert Run(start, [Submit, Submit]) == Run(Step(start, Submit), [Submit]) == Run(p, []);
  }

  lemma {:induction false} CancelledThere(p: Pool)
    requires |p.workers| == 1 && p.dropped == []
    requires var w := p.workers[0];
      w.place == Popping(true) && w.local == [1] && w.executed == [0] && w.memory == Memory(Some(0), [])
    ensures var p' := Run(p, [Order(0, Cancel), Work(0)]);
      && p'.dropped == [1] && p'.workers[0].executed == [0] && Repeated(p'.workers[0]) == [0] && !CalledOnce(p')
  {
    hide WorkerStep;
    CancelInGap(p, 0);
    var p1 := Step(p, Order(0, Cancel));
    var p' := Step(p1, Work(0));
    assert [Order(0, Cancel), Work(0)][1..] == [Work(0)] && [Work(0)][1..] == [];
    assert Run(p, [Order(0, Cancel), Work(0)]) == Run(p1, [Work(0)]) == Run(p', []);
    GapKeepsCalls(p1.workers[0], p1.ext);
    BegunTwice(p'.workers[0]);
    BegunOne(p'.workers, 0);
    assert AllBegun(p'.workers)[0] >= 2;
  }

  lemma {:induction false} GapKeepsCalls(w: Worker, ext: seq<Task>)
    requires AtGap(w)
    ensures WorkerStep(w, ext).0.executed == w.executed
  {
    hide ChooseStep, CallStep, AskStep, AddStep, LevelStep, PullStep, DrainStep, LeaveStep;
  }

  lemma {:induction false} BegunTwice(w: Worker)
    requires w.executed == [0] && Repeated(w) == [0]
    ensures multiset(Begun(w))[0] >= 2
  {
    assert multiset(Begun(w)) == multiset([0]) + multiset(InFlight(w)) + multiset([0]);
  }

  /** A new worker with two tasks to take, at its second look into its queue. */
  lemma {:induction false} ReachesPop(w0: Worker) returns (w: Worker, k: nat)
    requires w0 == NewWorker(true)
    ensures Steps(w0, [0, 1], k) == (w, [])
    ensures w.place == Popping(true) && w.local == [1] && w.executed == [0] && w.memory == Memory(Some(0), [])
  {
    hide WorkerStep, Steps;
    StartRound(w0, [0, 1]);
    assert [0, 1][1..] == [1];
    var w1 := w0.(place := Leveling(true), flags := w0.flags.(running := true), local := [0]);
    LevelRound(w1, [1]);
    assert [1][..1] == [1] && [1][1..] == [];
    var w2 := w1.(place := Head, local := [0, 1]);
    assert LevelWant(w1) == 5 && PullSize(w1.limits, 5, 1) == 1;
    assert LevelSteps(w1, 1) == 4 && [0] + [1] == [0, 1];
    assert Steps(w1, [1], 4) == (w2, []);
    CallRound(w2, []);
    var w3 := w2.(place := Leveling(true), local := [1], executed := [0], memory := Memory(Some(0), []));
    assert [0, 1][1..] == [1] && [] + [0] == [0];
    assert Steps(w2, [], 6) == (w3, []);
    LevelRound(w3, []);
    var w4 := w3.(place := Head);
    assert w3.local + [] == w3.local;
    assert LevelWant(w3) == 5 && PullSize(w3.limits, 5, 0) == 0;
    assert LevelSteps(w3, 0) == 3;
    assert Steps(w3, [], 3) == (w4, []);
    CallRound(w4, []);
    w, k := w4.(place := Popping(true)), 25;
    StepsAdd(w0, [0, 1], 8, 17);
    StepsAdd(w1, [1], 4, 13);
    StepsAdd(w2, [], 6, 7);
    StepsAdd(w3, [], 3, 4);
  }
}
