/**
 The load of a worker: how many tasks it holds or is about to hold, against the largest load it was
 given.  A pull at middle load may go past it, and such a pull is reached from the start.
 */
module TaskLoad {
  import opened TaskPool
  import opened TaskRuns

  function Load(w: Worker): nat { |w.local| + |Batch(w)| }

  /** A light pull from the highest middle load still stays below the limit. */
  predicate LightFits(l: Limits) { TopLoad(l) + CutSize(l, l.light) < l.maxLoad }

  /** The highest load at which a worker still pulls. */
  function TopLoad(l: Limits): int { (4 * l.maxLoad - 1) / 5 }

  /** The built-in parameters, and any light pull of at most a fifth. */
  lemma {:induction false} FifthFits(l: Limits)
    requires l.maxLoad >= 2 && (l.light <= l.maxLoad / 5 || l == Limits(10, 5, 2))
    ensures LightFits(l)
  {
  }

  /** The load is below the limit, and so it is after the pull that was decided on. */
  predicate LoadOk(w: Worker) {
    && Load(w) < w.limits.maxLoad
    && (w.place.Pulling? ==> |w.local| + CutSize(w.limits, w.place.want) < w.limits.maxLoad)
    && (w.place.Asking? ==> w.local == [])
  }

  lemma {:induction false} PullFits(w: Worker)
    requires LightFits(w.limits) && w.limits.maxLoad >= 2 && |w.local| < w.limits.maxLoad
    ensures LevelWant(w) != 0 ==> |w.local| + CutSize(w.limits, LevelWant(w)) < w.limits.maxLoad
  {
    if 5 * |w.local| < 4 * w.limits.maxLoad && 5 * |w.local| >= w.limits.maxLoad {
      assert |w.local| <= TopLoad(w.limits);
    }
  }

  lemma {:induction false} WorkKeepsLoad(w: Worker, ext: seq<Task>)
    requires LightFits(w.limits) && w.limits.maxLoad >= 2 && LoadOk(w)
    ensures LoadOk(WorkerStep(w, ext).0) && WorkerStep(w, ext).0.limits == w.limits
  {
    PullFits(w);
    hide LightFits, LevelWant, CutSize;
    if w.place.Leveling? || w.place.Pulling? {
      hide PopStep, DrainPopStep, CallStep, AskStep, AddStep, DrainStep, LeaveStep, ChooseStep;
    } else {
      hide LevelStep, PullStep, DrainStep, LeaveStep;
    }
  }

  lemma {:induction false} OrderKeepsLoad(w: Worker, command: Command)
    requires LoadOk(w) && !command.Update?
    ensures LoadOk(Obey(w, command)) && Obey(w, command).limits == w.limits
  {
    hide CutSize;
  }

  predicate NoUpdate(actions: seq<Action>) {
    forall i :: 0 <= i < |actions| && actions[i].Order? ==> !actions[i].command.Update?
  }

  /** Over any run in which the parameters stay. */
  lemma {:induction false} RunKeepsLoad(p: Pool, actions: seq<Action>, i: nat)
    requires i < |p.workers| && NoUpdate(actions)
    requires var w := p.workers[i]; LightFits(w.limits) && w.limits.maxLoad >= 2 && LoadOk(w)
    ensures LoadOk(Run(p, actions).workers[i]) && Run(p, actions).workers[i].limits == p.workers[i].limits
    decreases actions
  {
    hide WorkerStep, Obey, LoadOk, LightFits;
    if actions != [] {
      var w := p.workers[i];
      WorkKeepsLoad(w, p.ext);
      if actions[0].Order? { OrderKeepsLoad(w, actions[0].command); }
      RunKeepsLoad(Step(p, actions[0]), actions[1..], i);
    }
  }

  // ---- a run to an overload ----

  function Numbers(from: nat, k: nat): (r: seq<Task>)
    ensures |r| == k
  {
    seq(k, i requires 0 <= i < k => from + i)
  }

  function Submits(k: nat): seq<Action> { seq(k, _ => Submit) }

  lemma {:induction false} SubmitMany(p: Pool, k: nat)
    ensures Run(p, Submits(k)) == p.(ext := p.ext + Numbers(p.submitted, k), submitted := p.submitted + k)
    decreases k
  {
    if k == 0 {
      assert p.ext + Numbers(p.submitted, 0) == p.ext;
    } else {
      assert Submits(k)[1..] == Submits(k - 1);
      SubmitMany(Step(p, Submit), k - 1);
      assert [p.submitted] + Numbers(p.submitted + 1, k - 1) == Numbers(p.submitted, k);
      assert p.ext + [p.submitted] + Numbers(p.submitted + 1, k - 1) == p.ext + Numbers(p.submitted, k);
    }
  }

  /** Parameters with which the first batch a worker takes is as large as wanted. */
  function Filling(top: nat): Limits { Limits(2 * top, top, 2 * top) }

  lemma {:induction false} FillingPull(w: Worker, top: nat, have: nat)
    requires top > 0 && w.limits == Filling(top) && |w.local| == 1 && have >= top
    ensures LevelWant(w) != 0 && PullSize(w.limits, LevelWant(w), have) == top
    ensures LevelSteps(w, have) == top + 3
  {
    assert 2 * top / 2 == top;
  }

  /** A new worker fills its queue with one task and one batch, calls the first, and goes to pull. */
  lemma {:induction false} FillRound(w: Worker, ext: seq<Task>, top: nat) returns (w': Worker)
    requires w == NewWorker(true).(limits := Filling(top)) && 0 < top && |ext| > top
    ensures Steps(w, ext, 8 + (top + 3) + 6) == (w', ext[top + 1..])
    ensures w'.place == Leveling(true) && |w'.local| == top && w'.limits == w.limits
  {
    hide WorkerStep, Steps, LevelWant, LevelSteps, PullSize, Filling;
    StartRound(w, ext);
    var w1 := w.(place := Leveling(true), flags := w.flags.(running := true), local := [ext[0]]);
    var ext1 := ext[1..];
    FillingPull(w1, top, |ext1|);
    LevelRound(w1, ext1);
    var w2 := w1.(place := Head, local := [ext[0]] + ext1[..top]);
    assert Steps(w1, ext1, top + 3) == (w2, ext1[top..]);
    CallRound(w2, ext1[top..]);
    w' := Steps(w2, ext1[top..], 6).0;
    assert ext1[top..] == ext[top + 1..];
    StepsAdd(w1, ext1, top + 3, 6);
    StepsAdd(w, ext, 8, top + 3 + 6);
  }

  /** The run that leads to the highest load at which a worker still pulls, under the given parameters. */
  function Setup(maxLoad: nat, middleDiv: nat, lightDiv: nat): seq<Action>
    requires maxLoad >= 2
  {
    var top := TopLoad(LimitsFor(maxLoad, middleDiv, lightDiv));
    [Order(0, Update(2 * top, 2, 1, true))] + Submits(top + 1 + maxLoad)
    + Works(8 + (top + 3) + 6) + [Order(0, Update(maxLoad, middleDiv, lightDiv, true))]
  }

  lemma {:induction false} SetupReaches(maxLoad: nat, middleDiv: nat, lightDiv: nat) returns (w: Worker, ext: seq<Task>)
    requires maxLoad >= 2
    ensures var l := LimitsFor(maxLoad, middleDiv, lightDiv);
      && Run(Start(1, true), Setup(maxLoad, middleDiv, lightDiv)) == Pool(ext, [w], TopLoad(l) + 1 + maxLoad, [])
      && w.place == Leveling(true) && |w.local| == TopLoad(l) && w.limits == l && |ext| == maxLoad
  {
    var l := LimitsFor(maxLoad, middleDiv, lightDiv);
    var top := TopLoad(l);
    var n := top + 1 + maxLoad;
    var a, b, c := Order(0, Update(2 * top, 2, 1, true)), Works(8 + (top + 3) + 6), Order(0, Update(maxLoad, middleDiv, lightDiv, true));
    var start := Start(1, true);
    var w0 := NewWorker(true).(limits := Filling(top));
    var p1, p2 := Pool([], [w0], 0, []), Pool(Numbers(0, n), [w0], n, []);
    assert 2 * top / 2 == top;
    OneAction(start, a);
    assert start.workers == [NewWorker(true)] && Step(start, a) == p1;
    SubmitMany(p1, n);
    assert [] + Numbers(0, n) == Numbers(0, n);
    var w1 := FillRound(w0, Numbers(0, n), top);
    WorkAlone(p2, 8 + (top + 3) + 6);
    ext := Numbers(0, n)[top + 1..];
    var p3 := Pool(ext, [w1], n, []);
    w := Obey(w1, c.command);
    OneAction(p3, c);
    assert Step(p3, c) == Pool(ext, [w], n, []) by { assert p3.workers[0 := w] == [w]; }
    RunFour(start, [a], Submits(n), b, [c]);
  }

  lemma {:induction false} OneAction(p: Pool, a: Action)
    ensures Run(p, [a]) == Step(p, a)
  {
    assert [a][1..] == [];
    assert Run(p, [a]) == Run(Step(p, a), []);
  }

  lemma {:induction false} RunFour(p: Pool, a: seq<Action>, b: seq<Action>, c: seq<Action>, d: seq<Action>)
    ensures Run(p, a + b + c + d) == Run(Run(Run(Run(p, a), b), c), d)
  {
    RunAppend(p, a + b + c, d);
    RunAppend(p, a + b, c);
    RunAppend(p, a, b);
  }

  /**
   From the start, one worker comes to the highest load at which it still pulls, and its next two
   steps take it to that load and a whole light pull.
   */
  lemma {:induction false} ReachesTopLoad(maxLoad: nat, middleDiv: nat, lightDiv: nat)
    requires maxLoad >= 2 && LimitsFor(maxLoad, middleDiv, lightDiv).light > 0
    ensures var l, p := LimitsFor(maxLoad, middleDiv, lightDiv), Run(Start(1, true), Setup(maxLoad, middleDiv, lightDiv));
      && p.workers[0].limits == l && LoadOk(p.workers[0]) && Load(p.workers[0]) == TopLoad(l)
      && Load(Run(p, Works(2)).workers[0]) == TopLoad(l) + CutSize(l, l.light)
  {
    hide Setup, Run, Steps, WorkerStep, LimitsFor, CutSize, LoadOk, Load, Works;
    var l := LimitsFor(maxLoad, middleDiv, lightDiv);
    LightAtMost(maxLoad, middleDiv, lightDiv);
    var w, ext := SetupReaches(maxLoad, middleDiv, lightDiv);
    var p := Pool(ext, [w], TopLoad(l) + 1 + maxLoad, []);
    WorkAlone(p, 2);
    LightPull(w, ext);
    LevelingLoad(w);
  }

  lemma {:induction false} LightAtMost(maxLoad: nat, middleDiv: nat, lightDiv: nat)
    ensures LimitsFor(maxLoad, middleDiv, lightDiv).light <= maxLoad && LimitsFor(maxLoad, middleDiv, lightDiv).maxLoad == maxLoad
  {
    if lightDiv > 0 { QuotientAtMost(maxLoad, lightDiv); }
  }

  lemma {:induction false} QuotientAtMost(a: nat, b: nat)
    requires b > 0
    ensures a / b <= a
  {
    var q, r := a / b, a % b;
    assert a == b * q + r;
    TimesAtLeast(b, q);
  }

  lemma {:induction false} TimesAtLeast(b: nat, q: nat)
    requires b > 0
    ensures b * q >= q
    decreases b
  {
    if b > 1 {
      TimesAtLeast(b - 1, q);
      assert b * q == (b - 1) * q + q;
    }
  }

  lemma {:induction false} LevelingLoad(w: Worker)
    requires w.place == Leveling(true) && |w.local| == TopLoad(w.limits) && w.limits.maxLoad >= 2
    ensures LoadOk(w) && Load(w) == TopLoad(w.limits)
  {
  }

  lemma {:induction false} LightPull(w: Worker, ext: seq<Task>)
    requires w.place == Leveling(true) && w.limits.maxLoad >= 2 && |w.local| == TopLoad(w.limits)
    requires w.limits.light > 0 && |ext| >= w.limits.maxLoad && w.limits.light <= w.limits.maxLoad
    ensures Load(Steps(w, ext, 2).0) == TopLoad(w.limits) + CutSize(w.limits, w.limits.light)
  {
    assert LevelWant(w) == w.limits.light;
    assert ext[0..] == ext;
    var w1 := w.(place := Pulling(w.limits.light));
    assert WorkerStep(w, ext) == (w1, 0);
    assert Steps(w, ext, 2) == Steps(w1, ext, 1);
    var w2 := WorkerStep(w1, ext).0;
    assert Steps(w1, ext, 1) == Steps(w2, ext[WorkerStep(w1, ext).1..], 0);
  }

  /**
   A worker's load stays below its limit in every run that leaves its parameters alone, from every
   state reachable from a start in which it holds, exactly when the light pull fits.
   */
  lemma {:induction false} LoadBelowLimitIff(maxLoad: nat, middleDiv: nat, lightDiv: nat)
    requires maxLoad >= 2
    ensures var l := LimitsFor(maxLoad, middleDiv, lightDiv);
      LightFits(l) <==> forall n: nat, linked, setup, actions, i: nat ::
        i < n && NoUpdate(actions) && Settled(Run(Start(n, linked), setup), i, l)
        ==> Load(Run(Run(Start(n, linked), setup), actions).workers[i]) < maxLoad
  {
    hide Run, LightFits, LoadOk, Load;
    var l := LimitsFor(maxLoad, middleDiv, lightDiv);
    if LightFits(l) {
      forall n: nat, linked, setup, actions, i: nat
        | i < n && NoUpdate(actions) && Settled(Run(Start(n, linked), setup), i, l)
        ensures Load(Run(Run(Start(n, linked), setup), actions).workers[i]) < maxLoad
      {
        var p := Run(Start(n, linked), setup);
        RunKeepsLoad(p, actions, i);
        LoadOkBelow(Run(p, actions).workers[i]);
      }
    } else {
      var setup := Setup(maxLoad, middleDiv, lightDiv);
      LightCounts(l);
      ReachesTopLoad(maxLoad, middleDiv, lightDiv);
      var p := Run(Start(1, true), setup);
      assert Settled(p, 0, l) && NoUpdate(Works(2));
      assert Load(Run(p, Works(2)).workers[0]) >= maxLoad;
    }
  }

  predicate Settled(p: Pool, i: nat, l: Limits) {
    i < |p.workers| && p.workers[i].limits == l && LoadOk(p.workers[i])
  }

  lemma {:induction false} LoadOkBelow(w: Worker)
    requires LoadOk(w)
    ensures Load(w) < w.limits.maxLoad
  {
  }

  lemma {:induction false} LightCounts(l: Limits)
    requires l.maxLoad >= 2 && !LightFits(l)
    ensures l.light > 0 && TopLoad(l) + CutSize(l, l.light) >= l.maxLoad
  {
  }

  /** A quarter is too much: at a limit of 100 a run from the start takes a worker's load from 79 to 104. */
  lemma {:induction false} QuarterExceedsLimit() returns (setup: seq<Action>, more: seq<Action>)
    ensures var p := Run(Start(1, true), setup);
      && p.workers[0].limits == LimitsFor(100, 2, 4) && Load(p.workers[0]) == 79
      && NoUpdate(more) && Load(Run(p, more).workers[0]) == 104
  {
    hide Run, Setup, Load, LoadOk;
    setup, more := Setup(100, 2, 4), Works(2);
    ReachesTopLoad(100, 2, 4);
  }
}
