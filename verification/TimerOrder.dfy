/**
 The order of runs within one second.  Slots are queues: a node goes to the end and is taken from the
 front, at every wheel.  So of two tasks with the same delay, registered one after the other at the same
 moment, the first also runs first, through whatever rollovers and beside whatever other tasks.
 */
module TimerOrder {
  import opened TimingWheel
  import opened TimerRuns

  // ---- what concerns the two ids ----

  function Own(nodes: seq<TimerNode>, a: string, b: string): seq<TimerNode> {
    if nodes == [] then []
    else (if nodes[0].task.id == a || nodes[0].task.id == b then [nodes[0]] else []) + Own(nodes[1..], a, b)
  }

  function OwnRuns(log: seq<Run>, a: string, b: string): seq<Run> {
    if log == [] then []
    else (if log[0].id == a || log[0].id == b then [log[0]] else []) + OwnRuns(log[1..], a, b)
  }

  /** The nodes of the two ids, slot by slot, and their runs so far. */
  datatype View = View(slots: seq<seq<TimerNode>>, log: seq<Run>)

  function ViewOf(w: Wheel, a: string, b: string): View {
    View(seq(|w.slots|, k requires 0 <= k < |w.slots| => Own(w.slots[k], a, b)), OwnRuns(w.log, a, b))
  }

  lemma {:induction false} OwnAppend(x: seq<TimerNode>, y: seq<TimerNode>, a: string, b: string)
    ensures Own(x + y, a, b) == Own(x, a, b) + Own(y, a, b)
    decreases x
  {
    if x == [] {
      assert x + y == y;
    } else {
      assert (x + y)[0] == x[0] && (x + y)[1..] == x[1..] + y;
      OwnAppend(x[1..], y, a, b);
    }
  }

  lemma {:induction false} OwnRunsAppend(x: seq<Run>, y: seq<Run>, a: string, b: string)
    ensures OwnRuns(x + y, a, b) == OwnRuns(x, a, b) + OwnRuns(y, a, b)
    decreases x
  {
    if x == [] {
      assert x + y == y;
    } else {
      assert (x + y)[0] == x[0] && (x + y)[1..] == x[1..] + y;
      OwnRunsAppend(x[1..], y, a, b);
    }
  }

  lemma {:induction false} OwnOne(node: TimerNode, a: string, b: string)
    ensures Own([node], a, b) == if node.task.id == a || node.task.id == b then [node] else []
  {
    assert [node][1..] == [];
  }

  lemma {:induction false} OwnAre(nodes: seq<TimerNode>, a: string, b: string, i: nat)
    requires i < |Own(nodes, a, b)|
    ensures Own(nodes, a, b)[i] in nodes && (Own(nodes, a, b)[i].task.id == a || Own(nodes, a, b)[i].task.id == b)
    decreases nodes
  {
    var first := if nodes[0].task.id == a || nodes[0].task.id == b then [nodes[0]] else [];
    if i >= |first| {
      assert Own(nodes, a, b)[i] == Own(nodes[1..], a, b)[i - |first|];
      OwnAre(nodes[1..], a, b, i - |first|);
    }
  }

  // ---- the single moves ----

  lemma {:induction false} PushView(w: Wheel, k: nat, node: TimerNode, a: string, b: string)
    requires k < |w.slots|
    ensures var v := ViewOf(w, a, b);
      ViewOf(Push(w, k, node), a, b)
      == v.(slots := v.slots[k := v.slots[k] + if node.task.id == a || node.task.id == b then [node] else []])
  {
    OwnAppend(w.slots[k], [node], a, b);
    OwnOne(node, a, b);
  }

  lemma {:induction false} PushOther(w: Wheel, k: nat, node: TimerNode, a: string, b: string)
    requires k < |w.slots| && node.task.id != a && node.task.id != b
    ensures ViewOf(Push(w, k, node), a, b) == ViewOf(w, a, b)
  {
    PushView(w, k, node, a, b);
    var v := ViewOf(w, a, b);
    assert v.slots[k] + [] == v.slots[k];
  }

  lemma {:induction false} RunView(w: Wheel, task: TimerTask, a: string, b: string)
    ensures var v := ViewOf(w, a, b);
      ViewOf(RunTask(w, task), a, b)
      == v.(log := v.log + if task.callable && (task.id == a || task.id == b) then [Run(task.id, w.Clock())] else [])
  {
    hide Own;
    var run := Run(task.id, w.Clock());
    OwnRunsAppend(w.log, [run], a, b);
    assert [run][1..] == [] && OwnRuns(w.log, a, b) + [] == OwnRuns(w.log, a, b);
  }

  lemma {:induction false} AddOther(w: Wheel, task: TimerTask, a: string, b: string)
    requires |w.slots| == SLOTS && task.id != a && task.id != b
    ensures ViewOf(AddNode(w, task), a, b) == ViewOf(w, a, b)
  {
    hide ViewOf, Push;
    if task.Delay() > 0 {
      PushOther(w, SlotFor(w, task), NodeOf(task.Offset(w.hours, w.minutes, w.seconds)), a, b);
    }
  }

  lemma {:induction false} FireOther(w: Wheel, node: TimerNode, a: string, b: string)
    requires w.Sound() && node.task.id != a && node.task.id != b
    ensures ViewOf(FireNode(w, node), a, b) == ViewOf(w, a, b)
  {
    hide AddNode, Own, OwnRuns;
    RunView(w, node.task, a, b);
    var w1 := RunTask(w, node.task);
    var id := node.task.id;
    assert ViewOf(w, a, b).log + [] == ViewOf(w, a, b).log;
    if id in w1.registered {
      var next := Countdown(w1.registered[id]);
      AddOther(w1.(registered := w1.registered[id := next]), next, a, b);
    }
  }

  /** A one-shot task with a function to call. */
  predicate Shot(node: TimerNode) { node.task.cycle == 1 && node.task.callable }

  predicate AllShots(nodes: seq<TimerNode>) { forall i :: 0 <= i < |nodes| ==> Shot(nodes[i]) }

  function RunsAt(nodes: seq<TimerNode>, clock: nat): (r: seq<Run>)
    ensures |r| == |nodes|
  {
    if nodes == [] then [] else [Run(nodes[0].task.id, clock)] + RunsAt(nodes[1..], clock)
  }

  lemma {:induction false} FireOwn(w: Wheel, node: TimerNode, a: string, b: string)
    requires w.Sound() && (node.task.id == a || node.task.id == b) && Shot(node)
    ensures var v := ViewOf(w, a, b);
      ViewOf(FireNode(w, node), a, b) == v.(log := v.log + [Run(node.task.id, w.Clock())])
  {
    RunView(w, node.task, a, b);
  }

  lemma {:induction false} FireSound(w: Wheel, node: TimerNode)
    requires w.Sound()
    ensures FireNode(w, node).Sound() && SameClock(w, FireNode(w, node))
  {
    FireNodesSound(w, [node]);
    assert [node][1..] == [];
    assert FireNodes(w, [node]) == FireNodes(FireNode(w, node), []);
  }

  lemma {:induction false} OwnSplit(nodes: seq<TimerNode>, a: string, b: string)
    requires nodes != []
    ensures nodes[0].task.id != a && nodes[0].task.id != b ==> Own(nodes, a, b) == Own(nodes[1..], a, b)
    ensures nodes[0].task.id == a || nodes[0].task.id == b ==>
      Own(nodes, a, b) == [nodes[0]] + Own(nodes[1..], a, b) && Own(nodes, a, b)[1..] == Own(nodes[1..], a, b)
  {
  }

  lemma Grouped<T>(x: seq<T>, y: seq<T>, z: seq<T>)
    ensures x + y + z == x + (y + z) && x + [] == x
  {
  }

  /** Draining a list runs the tasks of the two ids in the list's order, and leaves their other nodes alone. */
  lemma {:induction false} FireNodesView(w: Wheel, nodes: seq<TimerNode>, a: string, b: string)
    requires w.Sound() && AllShots(Own(nodes, a, b))
    ensures var v := ViewOf(w, a, b);
      ViewOf(FireNodes(w, nodes), a, b) == v.(log := v.log + RunsAt(Own(nodes, a, b), w.Clock()))
    decreases nodes
  {
    hide ViewOf, FireNode, Own, Shot;
    var v := ViewOf(w, a, b);
    Grouped(v.log, [], []);
    if nodes == [] {
      assert Own(nodes, a, b) == [] by { NothingOwn(a, b); }
    } else {
      OwnSplit(nodes, a, b);
      FireSound(w, nodes[0]);
      var w1 := FireNode(w, nodes[0]);
      if nodes[0].task.id == a || nodes[0].task.id == b {
        assert Shot(Own(nodes, a, b)[0]);
        FireOwn(w, nodes[0], a, b);
        FireNodesView(w1, nodes[1..], a, b);
        Grouped(v.log, [Run(nodes[0].task.id, w.Clock())], RunsAt(Own(nodes[1..], a, b), w.Clock()));
      } else {
        FireOther(w, nodes[0], a, b);
        FireNodesView(w1, nodes[1..], a, b);
      }
    }
  }

  lemma NothingOwn(a: string, b: string)
    ensures Own([], a, b) == []
  {
  }

  // ---- the cascades ----

  /** All with the same place to go to. */
  predicate Alike(nodes: seq<TimerNode>, minutes: nat, seconds: nat, round: nat) {
    forall i :: 0 <= i < |nodes| ==>
      Shot(nodes[i]) && nodes[i].task.minutes == minutes && nodes[i].task.seconds == seconds && nodes[i].round == round
  }

  /** The nodes as they are put into the next list. */
  function Moved(nodes: seq<TimerNode>): (r: seq<TimerNode>)
    ensures |r| == |nodes|
  {
    if nodes == [] then [] else [NodeOf(nodes[0].task)] + Moved(nodes[1..])
  }

  /** Nodes of the two ids go to the end of one list in their order, or run in their order. */
  function Passed(v: View, nodes: seq<TimerNode>, to: int, clock: nat): View {
    if 0 <= to < |v.slots| then v.(slots := v.slots[to := v.slots[to] + Moved(nodes)])
    else v.(log := v.log + RunsAt(nodes, clock))
  }

  lemma {:induction false} PassedMore(v: View, node: TimerNode, rest: seq<TimerNode>, to: int, clock: nat)
    ensures [node][1..] == [] && ([node] + rest)[1..] == rest
    ensures Passed(Passed(v, [node], to, clock), rest, to, clock) == Passed(v, [node] + rest, to, clock)
  {
    assert [node][1..] == [] && ([node] + rest)[1..] == rest;
    if 0 <= to < |v.slots| {
      Grouped(v.slots[to], Moved([node]), Moved(rest));
      assert Moved([node]) + Moved(rest) == Moved([node] + rest);
      assert v.slots[to := v.slots[to]] == v.slots;
    } else {
      Grouped(v.log, RunsAt([node], clock), RunsAt(rest, clock));
      assert RunsAt([node], clock) + RunsAt(rest, clock) == RunsAt([node] + rest, clock);
    }
  }

  lemma {:induction false} PassedOne(v: View, node: TimerNode, to: int, clock: nat)
    ensures Passed(v, [node], to, clock)
         == if 0 <= to < |v.slots| then v.(slots := v.slots[to := v.slots[to] + [NodeOf(node.task)]])
            else v.(log := v.log + [Run(node.task.id, clock)])
  {
    assert [node][1..] == [];
    assert Moved([node]) == [NodeOf(node.task)] && RunsAt([node], clock) == [Run(node.task.id, clock)];
  }

  lemma {:induction false} MinuteOther(w: Wheel, node: TimerNode, a: string, b: string)
    requires |w.slots| == SLOTS && node.task.Normal() && node.task.id != a && node.task.id != b
    ensures ViewOf(CascadeMinute(w, node), a, b) == ViewOf(w, a, b) && SameClock(w, CascadeMinute(w, node))
  {
    hide ViewOf;
    RunView(w, node.task, a, b);
    Grouped(ViewOf(w, a, b).log, [], []);
    if node.task.seconds != 0 { PushOther(w, node.task.seconds, NodeOf(node.task), a, b); }
  }

  lemma {:induction false} MinuteOwn(w: Wheel, node: TimerNode, a: string, b: string)
    requires |w.slots| == SLOTS && node.task.Normal() && (node.task.id == a || node.task.id == b) && Shot(node)
    ensures var to := if node.task.seconds == 0 then -1 else node.task.seconds;
      ViewOf(CascadeMinute(w, node), a, b) == Passed(ViewOf(w, a, b), [node], to, w.Clock())
      && SameClock(w, CascadeMinute(w, node))
  {
    PassedOne(ViewOf(w, a, b), node, if node.task.seconds == 0 then -1 else node.task.seconds, w.Clock());
    hide Own, OwnRuns;
    RunView(w, node.task, a, b);
    if node.task.seconds != 0 { PushView(w, node.task.seconds, NodeOf(node.task), a, b); }
  }

  lemma {:induction false} MinutesView(w: Wheel, nodes: seq<TimerNode>, a: string, b: string, minutes: nat, seconds: nat, round: nat)
    requires |w.slots| == SLOTS && AllNormal(nodes) && Alike(Own(nodes, a, b), minutes, seconds, round)
    ensures var to := if seconds == 0 then -1 else seconds;
      ViewOf(CascadeMinutes(w, nodes), a, b) == Passed(ViewOf(w, a, b), Own(nodes, a, b), to, w.Clock())
    decreases nodes
  {
    hide ViewOf, CascadeMinute, Own, Shot, Passed;
    var v, to := ViewOf(w, a, b), if seconds == 0 then -1 else seconds;
    if nodes == [] {
      NothingOwn(a, b);
      NonePassed(v, to, w.Clock());
    } else {
      OwnSplit(nodes, a, b);
      var w1 := CascadeMinute(w, nodes[0]);
      if nodes[0].task.id == a || nodes[0].task.id == b {
        assert Own(nodes, a, b)[0] == nodes[0];
        MinuteOwn(w, nodes[0], a, b);
        AlikeRest(Own(nodes, a, b), minutes, seconds, round);
        MinutesView(w1, nodes[1..], a, b, minutes, seconds, round);
        PassedMore(v, nodes[0], Own(nodes[1..], a, b), to, w.Clock());
      } else {
        MinuteOther(w, nodes[0], a, b);
        MinutesView(w1, nodes[1..], a, b, minutes, seconds, round);
      }
    }
  }

  lemma NonePassed(v: View, to: int, clock: nat)
    ensures Passed(v, [], to, clock) == v
  {
    Grouped(v.log, [], []);
    if 0 <= to < |v.slots| { Grouped(v.slots[to], [], []); }
  }

  lemma AlikeRest(nodes: seq<TimerNode>, minutes: nat, seconds: nat, round: nat)
    requires nodes != [] && Alike(nodes, minutes, seconds, round)
    ensures Alike(nodes[1..], minutes, seconds, round)
  {
  }

  function HourTarget(minutes: nat, seconds: nat): int {
    if minutes != 0 then minutes + SECOND_SLOTS - 1 else if seconds != 0 then seconds else -1
  }

  lemma {:induction false} HourOther(w: Wheel, node: TimerNode, a: string, b: string)
    requires |w.slots| == SLOTS && node.task.Normal() && node.task.id != a && node.task.id != b
    ensures ViewOf(CascadeHour(w, node), a, b) == ViewOf(w, a, b) && SameClock(w, CascadeHour(w, node))
  {
    hide ViewOf;
    RunView(w, node.task, a, b);
    Grouped(ViewOf(w, a, b).log, [], []);
    if node.task.minutes != 0 {
      PushOther(w, node.task.minutes + SECOND_SLOTS - 1, NodeOf(node.task), a, b);
    } else if node.task.seconds != 0 {
      PushOther(w, node.task.seconds, NodeOf(node.task), a, b);
    }
  }

  lemma {:induction false} HourOwn(w: Wheel, node: TimerNode, a: string, b: string)
    requires |w.slots| == SLOTS && node.task.Normal() && (node.task.id == a || node.task.id == b) && Shot(node)
    requires node.round == 0
    ensures ViewOf(CascadeHour(w, node), a, b)
         == Passed(ViewOf(w, a, b), [node], HourTarget(node.task.minutes, node.task.seconds), w.Clock())
    ensures SameClock(w, CascadeHour(w, node))
  {
    PassedOne(ViewOf(w, a, b), node, HourTarget(node.task.minutes, node.task.seconds), w.Clock());
    hide Own, OwnRuns;
    RunView(w, node.task, a, b);
    if node.task.minutes != 0 {
      PushView(w, node.task.minutes + SECOND_SLOTS - 1, NodeOf(node.task), a, b);
    } else if node.task.seconds != 0 {
      PushView(w, node.task.seconds, NodeOf(node.task), a, b);
    }
  }

  lemma {:induction false} HoursView(w: Wheel, nodes: seq<TimerNode>, a: string, b: string, minutes: nat, seconds: nat, round: nat)
    requires |w.slots| == SLOTS && AllNormal(nodes) && Alike(Own(nodes, a, b), minutes, seconds, round)
    ensures ViewOf(CascadeHours(w, nodes), a, b)
         == if round != 0 then ViewOf(w, a, b)
            else Passed(ViewOf(w, a, b), Own(nodes, a, b), HourTarget(minutes, seconds), w.Clock())
    decreases nodes
  {
    hide ViewOf, Own, Shot, Passed, HourTarget;
    var v, to := ViewOf(w, a, b), HourTarget(minutes, seconds);
    if nodes == [] {
      NothingOwn(a, b);
      NonePassed(v, to, w.Clock());
    } else {
      OwnSplit(nodes, a, b);
      var w1 := CascadeHour(w, nodes[0]);
      if nodes[0].task.id == a || nodes[0].task.id == b {
        assert Own(nodes, a, b)[0] == nodes[0];
        AlikeRest(Own(nodes, a, b), minutes, seconds, round);
        if round == 0 { HourOwn(w, nodes[0], a, b); }
        HoursView(w1, nodes[1..], a, b, minutes, seconds, round);
        PassedMore(v, nodes[0], Own(nodes[1..], a, b), to, w.Clock());
      } else {
        HourOther(w, nodes[0], a, b);
        HoursView(w1, nodes[1..], a, b, minutes, seconds, round);
      }
    }
  }

  /** Nodes that wait another day keep their order. */
  lemma {:induction false} WaitingOwn(nodes: seq<TimerNode>, a: string, b: string)
    ensures Own(Waiting(nodes), a, b) == Waiting(Own(nodes, a, b))
    decreases nodes
  {
    if nodes != [] {
      WaitingOwn(nodes[1..], a, b);
      OwnSplit(nodes, a, b);
      var rest := Waiting(nodes[1..]);
      if nodes[0].round != 0 {
        var next := nodes[0].(round := nodes[0].round - 1);
        assert Waiting(nodes) == [next] + rest && ([next] + rest)[1..] == rest;
        OwnSplit([next] + rest, a, b);
      }
    }
  }

  // ---- where the two stand ----

  function Blank(): (r: seq<seq<TimerNode>>)
    ensures |r| == SLOTS
  {
    seq(SLOTS, _ => [])
  }

  /** They differ in nothing but their ids. */
  predicate Twins(x: TimerNode, y: TimerNode, a: string, b: string) {
    && Shot(x) && Shot(y) && x.task.id == a && y.task.id == b && x.round == y.round
    && x.task.hours == y.task.hours && x.task.minutes == y.task.minutes && x.task.seconds == y.task.seconds
  }

  /** The two stand in the k-th list, the first first, and nowhere else. */
  predicate Stand(slots: seq<seq<TimerNode>>, k: nat, x: TimerNode, y: TimerNode, a: string, b: string) {
    k < SLOTS && Twins(x, y, a, b) && slots == Blank()[k := [x, y]]
  }

  /** The first stands before the second in one list, and neither has run; or both have, the first first. */
  ghost predicate InOrder(v: View, a: string, b: string) {
    || (v.log == [] && exists k: nat, x: TimerNode, y: TimerNode :: Stand(v.slots, k, x, y, a, b))
    || (v.slots == Blank() && exists c: nat :: v.log == [Run(a, c), Run(b, c)])
  }

  lemma {:induction false} TwinsAlike(x: TimerNode, y: TimerNode, a: string, b: string)
    requires Twins(x, y, a, b)
    ensures Alike([x, y], x.task.minutes, x.task.seconds, x.round) && AllShots([x, y])
    ensures Alike([], x.task.minutes, x.task.seconds, x.round)
    ensures Moved([x, y]) == [NodeOf(x.task), NodeOf(y.task)] && Twins(NodeOf(x.task), NodeOf(y.task), a, b)
    ensures forall c: nat :: RunsAt([x, y], c) == [Run(a, c), Run(b, c)]
  {
    assert [x, y][1..] == [y] && [y][1..] == [];
    assert Moved([y]) == [NodeOf(y.task)] + Moved([]);
    forall c: nat ensures RunsAt([x, y], c) == [Run(a, c), Run(b, c)] {
      assert RunsAt([y], c) == [Run(b, c)] + RunsAt([], c);
    }
  }

  lemma {:induction false} SlotOf(w: Wheel, k: nat, a: string, b: string)
    requires k < |w.slots|
    ensures Own(w.slots[k], a, b) == ViewOf(w, a, b).slots[k]
  {
  }

  lemma {:induction false} SetView(w: Wheel, k: nat, nodes: seq<TimerNode>, a: string, b: string)
    requires k < |w.slots|
    ensures var v := ViewOf(w, a, b); ViewOf(SetSlot(w, k, nodes), a, b) == v.(slots := v.slots[k := Own(nodes, a, b)])
  {
  }

  /** What passed on from a list that is then emptied: the two stand in the next list, or have run. */
  lemma {:induction false} PassedInOrder(v: View, k: nat, x: TimerNode, y: TimerNode, a: string, b: string, to: int, clock: nat)
    requires v.log == [] && Stand(v.slots, k, x, y, a, b) && to < SLOTS && to != k
    ensures var v' := Passed(v, [x, y], to, clock);
      |v'.slots| == SLOTS && InOrder(v'.(slots := v'.slots[k := []]), a, b)
  {
    TwinsAlike(x, y, a, b);
    var v' := Passed(v, [x, y], to, clock);
    if 0 <= to {
      var x', y' := NodeOf(x.task), NodeOf(y.task);
      assert v.slots[to] + [x', y'] == [x', y'];
      assert v'.slots[k := []] == Blank()[to := [x', y']];
      assert Stand(v'.slots[k := []], to, x', y', a, b);
    } else {
      assert v'.slots[k := []] == Blank();
      assert v'.log == [Run(a, clock), Run(b, clock)];
    }
  }

  lemma {:induction false} SecondInOrder(w: Wheel, a: string, b: string)
    requires w.Sound() && w.seconds < SECOND_SLOTS && InOrder(ViewOf(w, a, b), a, b)
    ensures InOrder(ViewOf(SecondWheel(w), a, b), a, b)
  {
    hide ViewOf, Passed, Own, FireNodes, Twins;
    var v, s := ViewOf(w, a, b), w.seconds;
    SlotOf(w, s, a, b);
    NothingOwn(a, b);
    var w1 := FireNodes(w, w.slots[s]);
    SetView(w1, s, [], a, b);
    if k: nat, x: TimerNode, y: TimerNode :| v.log == [] && Stand(v.slots, k, x, y, a, b) {
      TwinsAlike(x, y, a, b);
      FireNodesView(w, w.slots[s], a, b);
      if k == s {
        assert Blank()[k := [x, y]][k := []] == Blank();
        assert [] + RunsAt([x, y], w.Clock()) == [Run(a, w.Clock()), Run(b, w.Clock())];
      } else {
        assert v.slots[s := []] == v.slots;
        assert v.log + RunsAt([], w.Clock()) == v.log;
      }
    } else {
      FireNodesView(w, w.slots[s], a, b);
      assert v.log + RunsAt([], w.Clock()) == v.log;
      assert v.slots[s := []] == v.slots;
    }
  }

  lemma {:induction false} MinuteInOrder(w: Wheel, a: string, b: string)
    requires w.Sound() && w.minutes < MINUTE_SLOTS && InOrder(ViewOf(w, a, b), a, b)
    ensures InOrder(ViewOf(MinuteWheel(w), a, b), a, b)
  {
    hide ViewOf, Passed, Own, CascadeMinutes, Twins;
    var v, s := ViewOf(w, a, b), w.minutes + SECOND_SLOTS;
    SlotOf(w, s, a, b);
    NothingOwn(a, b);
    SetView(CascadeMinutes(w, w.slots[s]), s, [], a, b);
    if k: nat, x: TimerNode, y: TimerNode :| v.log == [] && Stand(v.slots, k, x, y, a, b) {
      TwinsAlike(x, y, a, b);
      MinutesView(w, w.slots[s], a, b, x.task.minutes, x.task.seconds, x.round);
      var to := if x.task.seconds == 0 then -1 else x.task.seconds;
      if k == s {
        SecondsBelow(w, s, x, y, a, b);
        PassedInOrder(v, k, x, y, a, b, to, w.Clock());
      } else {
        NonePassed(v, to, w.Clock());
        assert v.slots[s := []] == v.slots;
      }
    } else {
      MinutesView(w, w.slots[s], a, b, 0, 0, 0);
      NonePassed(v, -1, w.Clock());
      assert v.slots[s := []] == v.slots;
    }
  }

  lemma {:induction false} SecondsBelow(w: Wheel, k: nat, x: TimerNode, y: TimerNode, a: string, b: string)
    requires w.Sound() && k < SLOTS && Own(w.slots[k], a, b) == [x, y]
    ensures x.task.seconds < 60 && x.task.minutes < 60
  {
    OwnAre(w.slots[k], a, b, 0);
    assert Own(w.slots[k], a, b)[0] == x;
  }

  lemma {:induction false} HourInOrder(w: Wheel, a: string, b: string)
    requires w.Sound() && InOrder(ViewOf(w, a, b), a, b)
    ensures InOrder(ViewOf(HourWheel(w), a, b), a, b)
  {
    hide ViewOf, Passed, Own, CascadeHours, Twins, Waiting;
    var v, s := ViewOf(w, a, b), w.hours % HOUR_SLOTS + MINUTE_SLOTS + SECOND_SLOTS;
    SlotOf(w, s, a, b);
    SetView(CascadeHours(w, w.slots[s]), s, Waiting(w.slots[s]), a, b);
    WaitingOwn(w.slots[s], a, b);
    assert Waiting([]) == [] by { NoneWaiting(); }
    if k: nat, x: TimerNode, y: TimerNode :| v.log == [] && Stand(v.slots, k, x, y, a, b) {
      TwinsAlike(x, y, a, b);
      HoursView(w, w.slots[s], a, b, x.task.minutes, x.task.seconds, x.round);
      var to := HourTarget(x.task.minutes, x.task.seconds);
      if k == s {
        SecondsBelow(w, s, x, y, a, b);
        TwoWaiting(x, y, a, b);
        if x.round == 0 {
          PassedInOrder(v, k, x, y, a, b, to, w.Clock());
        } else {
          var x', y' := x.(round := x.round - 1), y.(round := y.round - 1);
          assert Blank()[k := [x, y]][k := [x', y']] == Blank()[k := [x', y']];
          assert Stand(v.slots[k := [x', y']], k, x', y', a, b);
        }
      } else {
        NonePassed(v, to, w.Clock());
        assert v.slots[s := []] == v.slots;
      }
    } else {
      HoursView(w, w.slots[s], a, b, 0, 0, 0);
      NonePassed(v, HourTarget(0, 0), w.Clock());
      assert v.slots[s := []] == v.slots;
    }
  }

  lemma NoneWaiting()
    ensures Waiting([]) == []
  {
  }

  lemma {:induction false} TwoWaiting(x: TimerNode, y: TimerNode, a: string, b: string)
    requires Twins(x, y, a, b)
    ensures Waiting([x, y]) == if x.round == 0 then [] else [x.(round := x.round - 1), y.(round := y.round - 1)]
    ensures x.round != 0 ==> Twins(x.(round := x.round - 1), y.(round := y.round - 1), a, b)
  {
    assert [x, y][1..] == [y] && [y][1..] == [];
    assert Waiting([y]) == if y.round == 0 then Waiting([]) else [y.(round := y.round - 1)] + Waiting([]);
  }

  // ---- any run ----

  lemma {:induction false} ClockOnly(w: Wheel, w': Wheel, a: string, b: string)
    requires w'.slots == w.slots && w'.log == w.log
    ensures ViewOf(w', a, b) == ViewOf(w, a, b)
  {
  }

  lemma {:induction false} TickInOrder(w: Wheel, a: string, b: string)
    requires w.Valid() && InOrder(ViewOf(w, a, b), a, b)
    ensures InOrder(ViewOf(Tick(w), a, b), a, b)
  {
    hide ViewOf, InOrder, SecondWheel, MinuteWheel, HourWheel;
    SecondWheelSound(w);
    SecondInOrder(w, a, b);
    var w1 := SecondWheel(w);
    var w2 := w1.(seconds := w1.seconds + 1);
    ClockOnly(w1, w2, a, b);
    if w2.seconds >= SECOND_SLOTS {
      MinuteWheelSound(w2);
      MinuteInOrder(w2, a, b);
      var w3 := MinuteWheel(w2);
      var w4 := w3.(seconds := 0, minutes := w3.minutes + 1);
      ClockOnly(w3, w4, a, b);
      if w4.minutes >= MINUTE_SLOTS {
        HourWheelSound(w4);
        HourInOrder(w4, a, b);
        var w5 := HourWheel(w4);
        ClockOnly(w5, w5.(minutes := 0, hours := w5.hours + 1), a, b);
      }
    }
  }

  lemma {:induction false} SubmitOther(w: Wheel, task: TimerTask, a: string, b: string)
    requires w.Valid() && task.Normal() && task.id != a && task.id != b
    ensures ViewOf(Submit(w, task), a, b) == ViewOf(w, a, b)
  {
    hide ViewOf, AddNode;
    var w1 := w.(registered := w.registered[task.id := task]);
    ClockOnly(w, w1, a, b);
    ClockOnly(w, Erase(w, task.id), a, b);
    AddOther(w, task, a, b);
    AddOther(w1, task, a, b);
  }

  lemma {:induction false} RunInOrder(w: Wheel, events: seq<Event>, a: string, b: string)
    requires w.Valid() && NormalEvents(events) && Without(events, a) && Without(events, b)
    requires InOrder(ViewOf(w, a, b), a, b)
    ensures InOrder(ViewOf(RunWheel(w, events), a, b), a, b)
    decreases events
  {
    hide ViewOf, InOrder, Tick, Submit;
    if events != [] {
      match events[0] {
        case Ticked => TickInOrder(w, a, b);
        case Submitted(task) => SubmitOther(w, task, a, b);
      }
      RunInOrder(Apply(w, events[0]), events[1..], a, b);
    }
  }

  // ---- the start ----

  predicate Unseen(w: Wheel, id: string) { forall i :: 0 <= i < |w.log| ==> w.log[i].id != id }

  lemma {:induction false} NoneOwn(nodes: seq<TimerNode>, a: string, b: string)
    requires forall i :: 0 <= i < |nodes| ==> nodes[i].task.id != a && nodes[i].task.id != b
    ensures Own(nodes, a, b) == []
    decreases nodes
  {
    if nodes != [] { NoneOwn(nodes[1..], a, b); }
  }

  lemma {:induction false} NoRuns(log: seq<Run>, a: string, b: string)
    requires forall i :: 0 <= i < |log| ==> log[i].id != a && log[i].id != b
    ensures OwnRuns(log, a, b) == []
    decreases log
  {
    if log != [] { NoRuns(log[1..], a, b); }
  }

  lemma {:induction false} FreshView(w: Wheel, a: string, b: string)
    requires w.Valid() && Fresh(w, a) && Fresh(w, b) && Unseen(w, a) && Unseen(w, b)
    ensures ViewOf(w, a, b) == View(Blank(), [])
  {
    NoRuns(w.log, a, b);
    forall k | 0 <= k < SLOTS ensures ViewOf(w, a, b).slots[k] == [] { NoneOwn(w.slots[k], a, b); }
  }

  /** The same delay, one call, another id. */
  predicate SameDelay(x: TimerTask, y: TimerTask) {
    && x.Normal() && x.Delay() > 0 && x.cycle == 1 && x.callable && x.id != y.id
    && y == x.(id := y.id)
  }

  lemma {:induction false} SubmitBoth(w: Wheel, x: TimerTask, y: TimerTask)
    requires w.Valid() && SameDelay(x, y) && ViewOf(w, x.id, y.id) == View(Blank(), [])
    ensures InOrder(ViewOf(Submit(Submit(w, x), y), x.id, y.id), x.id, y.id)
  {
    hide ViewOf;
    var a, b, k := x.id, y.id, SlotFor(w, x);
    var nx, ny := NodeOf(x.Offset(w.hours, w.minutes, w.seconds)), NodeOf(y.Offset(w.hours, w.minutes, w.seconds));
    var w1 := Submit(w, x);
    assert w1 == Push(w, k, nx);
    PushView(w, k, nx, a, b);
    assert SlotFor(w1, y) == k && Submit(w1, y) == Push(w1, k, ny);
    PushView(w1, k, ny, a, b);
    assert [] + [nx] == [nx] && [nx] + [ny] == [nx, ny];
    assert Blank()[k := [nx]][k := [nx, ny]] == Blank()[k := [nx, ny]];
    assert Stand(Blank()[k := [nx, ny]], k, nx, ny, a, b);
  }

  /**
   First come, first run.  Two one-shot tasks with the same delay are registered one after the other in
   the same second; then, in any run, with any other tasks: both have run or neither has, at the same
   reading of the clock, and in the log the first stands before the second.
   */
  lemma {:induction false} FirstComeFirstRun(w: Wheel, x: TimerTask, y: TimerTask, events: seq<Event>)
    requires w.Valid() && SameDelay(x, y)
    requires Fresh(w, x.id) && Fresh(w, y.id) && Unseen(w, x.id) && Unseen(w, y.id)
    requires NormalEvents(events) && Without(events, x.id) && Without(events, y.id)
    ensures var runs := OwnRuns(RunWheel(Submit(Submit(w, x), y), events).log, x.id, y.id);
      runs == [] || exists c: nat :: runs == [Run(x.id, c), Run(y.id, c)]
  {
    hide RunWheel, Submit, Fresh;
    FreshView(w, x.id, y.id);
    SubmitBoth(w, x, y);
    RunInOrder(Submit(Submit(w, x), y), events, x.id, y.id);
    OrderedLog(ViewOf(RunWheel(Submit(Submit(w, x), y), events), x.id, y.id), x.id, y.id);
  }

  lemma OrderedLog(v: View, a: string, b: string)
    requires InOrder(v, a, b)
    ensures v.log == [] || exists c: nat :: v.log == [Run(a, c), Run(b, c)]
  {
  }
}
