/**
 The timer as the object the program runs: clock fields, slot lists and record table, changed
 in place.  Every method is proved to take the object from a wheel to the wheel the functions
 of TimingWheel give; the clock's phases run between them with `seconds` or `minutes` at 60,
 which is why only `Sound` and not `Valid` is asked of them.
 */
module TimeWheelTimer {
  import opened TimingWheel
  import WheelRefinement

  class Timer {
    var hours: nat
    var minutes: nat
    var seconds: nat
    var slots: seq<seq<TimerNode>>
    var registered: map<string, TimerTask>
    ghost var log: seq<Run>

    ghost function State(): Wheel
      reads this
    {
      Wheel(hours, minutes, seconds, slots, registered, log)
    }

    constructor ()
      ensures State() == EmptyWheel()
    {
      hours, minutes, seconds := 0, 0, 0;
      registered := map[];
      log := [];
      slots := [];
      new;
      for i := 0 to SLOTS
        invariant State() == EmptyWheel().(slots := seq(i, _ => []))
      {
        slots := slots + [[]];
      }
    }

    method AddTimerNodeFor(timerTask: TimerTask)
      requires State().Sound()
      modifies this
      ensures State() == AddNode(old(State()), timerTask)
    {
      var h, m, s := timerTask.hours, timerTask.minutes, timerTask.seconds;
      if h == 0 && m == 0 && s == 0 {
        return;
      }
      var hrSlotNo := (h + hours - 1) % HOUR_SLOTS;
      var minSlotNo := (m + minutes - 1) % MINUTE_SLOTS;
      var secSlotNo := (s + seconds) % SECOND_SLOTS;
      var timerNode := NodeOf(timerTask.Offset(hours, minutes, seconds));
      if h != 0 {
        PushBack(hrSlotNo + SECOND_SLOTS + MINUTE_SLOTS, timerNode);
      } else if m != 0 {
        PushBack(minSlotNo + SECOND_SLOTS, timerNode);
      } else {
        PushBack(secSlotNo, timerNode);
      }
    }

    method PushBack(slotNo: nat, node: TimerNode)
      requires slotNo < |slots|
      modifies this`slots
      ensures State() == Push(old(State()), slotNo, node)
    {
      slots := slots[slotNo := slots[slotNo] + [node]];
    }

    /** Erases the node at position `i` of a slot's list. */
    method EraseAt(slotNo: nat, i: nat)
      requires slotNo < |slots| && i < |slots[slotNo]|
      modifies this`slots
      ensures State() == SetSlot(old(State()), slotNo, old(slots[slotNo])[..i] + old(slots[slotNo])[i + 1..])
    {
      slots := slots[slotNo := slots[slotNo][..i] + slots[slotNo][i + 1..]];
    }

    method EraseTimerTask(key: string)
      modifies this`registered
      ensures State() == Erase(old(State()), key)
    {
      if key !in registered {
        return;
      }
      registered := registered - {key};
    }

    method RepeatTimerTask(key: string)
      requires State().Sound()
      modifies this
      ensures State() == Repeat(old(State()), key)
    {
      if key !in registered {
        return;
      }
      var record := registered[key];
      if record.cycle > 0 {
        record := record.(cycle := record.cycle - 1);
      }
      registered := registered[key := record];
      AddTimerNodeFor(record);
    }

    /** Calling the task's function: what the callback does is not part of the timer. */
    method CallTask(task: TimerTask)
      modifies this`log
      ensures State() == RunTask(old(State()), task)
    {
      if task.callable {
        log := log + [Run(task.id, 3600 * hours + 60 * minutes + seconds)];
      }
    }

    method CheckSecondWheel(slotNo: nat)
      requires State().Valid() && slotNo == seconds
      modifies this
      ensures State() == SecondWheel(old(State()))
    {
      if slots[slotNo] == [] {
        assert SetSlot(State(), slotNo, []) == State();
        return;
      }
      ghost var start := State();
      while slots[slotNo] != []
        invariant State().Valid() && seconds == slotNo
        invariant SecondWheel(State()) == SecondWheel(start)
        decreases |slots[slotNo]|
      {
        ghost var w := State();
        var node := slots[slotNo][0];
        CallTask(node.task);
        if node.task.cycle == 1 {
          EraseTimerTask(node.task.id);
        } else if node.task.cycle > 1 || node.task.cycle < 0 {
          RepeatTimerTask(node.task.id);
        }
        assert State() == FireNode(w, node);
        FireNodeStays(w, node);
        EraseAt(slotNo, 0);
        SecondWheelStep(w, node, State());
      }
      assert SetSlot(State(), slotNo, []) == State();
    }

    method CheckMinuteWheel(slotNo: nat)
      requires State().Sound() && minutes < 60 && seconds == 60 && slotNo == minutes + SECOND_SLOTS
      modifies this
      ensures State() == MinuteWheel(old(State()))
    {
      if slots[slotNo] == [] {
        assert SetSlot(State(), slotNo, []) == State();
        return;
      }
      ghost var start := State();
      while slots[slotNo] != []
        invariant State().Sound() && SameClock(start, State())
        invariant MinuteWheel(State()) == MinuteWheel(start)
        decreases |slots[slotNo]|
      {
        ghost var w := State();
        var node := slots[slotNo][0];
        if node.task.seconds == 0 {
          EraseAt(slotNo, 0);
          CallTask(node.task);
        } else {
          var secSlotNo := (node.task.seconds + seconds) % seconds;
          EraseAt(slotNo, 0);
          PushBack(secSlotNo, NodeOf(node.task));
        }
        MinuteWheelStep(w, node, State());
      }
      assert SetSlot(State(), slotNo, []) == State();
    }

    /** The part of the hour loop that takes a node with no days left out of the slot. */
    method TakeFromHour(slotNo: nat, i: nat)
      requires State().Sound() && seconds == 0 && minutes == 60
      requires 120 <= slotNo < SLOTS && i < |slots[slotNo]| && slots[slotNo][i].round == 0
      modifies this
      ensures State() == CascadeHour(
        SetSlot(old(State()), slotNo, old(slots[slotNo])[..i] + old(slots[slotNo])[i + 1..]), old(slots[slotNo])[i])
    {
      var node := slots[slotNo][i];
      if node.task.minutes != 0 {
        var minSlotNo := (node.task.minutes + minutes) % MINUTE_SLOTS + SECOND_SLOTS - 1;
        EraseAt(slotNo, i);
        PushBack(minSlotNo, NodeOf(node.task));
      } else if node.task.seconds != 0 {
        var secSlotNo := (node.task.seconds + seconds) % SECOND_SLOTS;
        EraseAt(slotNo, i);
        PushBack(secSlotNo, NodeOf(node.task));
      } else {
        EraseAt(slotNo, i);
        CallTask(node.task);
      }
    }

    method CheckHourWheel(slotNo: nat)
      requires State().Sound() && seconds == 0 && minutes == 60
      requires slotNo == hours % HOUR_SLOTS + MINUTE_SLOTS + SECOND_SLOTS
      modifies this
      ensures State() == HourWheel(old(State()))
    {
      if slots[slotNo] == [] {
        assert SetSlot(State(), slotNo, []) == State();
        return;
      }
      ghost var start, nodes := State(), slots[slotNo];
      var i := 0;
      ghost var done := 0;
      HourLoopStarts(start, slotNo);
      while i < |slots[slotNo]|
        invariant HourLoop(start, State(), slotNo, done, i)
        decreases |nodes| - done
      {
        ghost var w := State();
        var node := slots[slotNo][i];
        if node.round == 0 {
          TakeFromHour(slotNo, i);
          HourLoopMoves(start, w, State(), slotNo, done, i);
        } else {
          slots := slots[slotNo := slots[slotNo][i := node.(round := node.round - 1)]];
          HourLoopWaits(start, w, State(), slotNo, done, i);
          i := i + 1;
        }
        done := done + 1;
      }
      HourLoopEnds(start, State(), slotNo, done, i);
    }

    /** One second of the clock thread. */
    method TickOnce()
      requires State().Valid()
      modifies this
      ensures State() == Tick(old(State())) && State().Valid()
    {
      hide SecondWheel, MinuteWheel, HourWheel;
      SecondWheelSound(State());
      CheckSecondWheel(seconds);
      seconds := seconds + 1;
      if seconds == SECOND_SLOTS {
        MinuteWheelSound(State());
        CheckMinuteWheel(minutes + SECOND_SLOTS);
        seconds := 0;
        minutes := minutes + 1;
        if minutes == MINUTE_SLOTS {
          HourWheelSound(State());
          CheckHourWheel(hours % HOUR_SLOTS + MINUTE_SLOTS + SECOND_SLOTS);
          seconds := 0;
          minutes := 0;
          hours := hours + 1;
        }
      }
    }

    /** One task taken from the entry queue by the registering thread. */
    method RegisterTask(timerTask: TimerTask)
      requires State().Valid() && timerTask.Normal()
      modifies this
      ensures State() == Submit(old(State()), timerTask) && State().Valid()
    {
      var cycNum := timerTask.cycle;
      if cycNum == 0 {
        EraseTimerTask(timerTask.id);
        return;
      } else if cycNum < 0 || cycNum > 1 {
        if timerTask.id !in registered {
          registered := registered[timerTask.id := timerTask];
        }
      }
      AddTimerNodeFor(timerTask);
    }
  }

  // ---- one iteration of each draining loop ----

  lemma {:induction false} FireNodeStays(w: Wheel, node: TimerNode)
    requires w.Valid()
    ensures FireNode(w, node).Valid() && SameClock(w, FireNode(w, node))
    ensures FireNode(w, node).slots[w.seconds] == w.slots[w.seconds]
  {
    WheelRefinement.FireNodeRefines(w, node);
  }

  lemma {:induction false} SecondWheelStep(w: Wheel, node: TimerNode, r: Wheel)
    requires w.Valid() && w.slots[w.seconds] != [] && node == w.slots[w.seconds][0]
    requires r == SetSlot(FireNode(w, node), w.seconds, [] + w.slots[w.seconds][1..])
    ensures r.Valid() && SameClock(w, r) && SecondWheel(r) == SecondWheel(w)
  {
    var nodes := w.slots[w.seconds];
    var w1 := FireNode(w, node);
    FireNodeStays(w, node);
    assert [] + nodes[1..] == nodes[1..];
    WheelRefinement.FireNodesFrame(w1, nodes[1..], nodes[1..]);
    FireNodesSound(w1, nodes[1..]);
    var x := FireNodes(w1, nodes[1..]);
    assert SetSlot(SetSlot(x, w.seconds, nodes[1..]), w.seconds, []) == SetSlot(x, w.seconds, []);
  }

  lemma {:induction false} MinuteWheelStep(w: Wheel, node: TimerNode, r: Wheel)
    requires w.Sound() && w.minutes < 60 && w.slots[w.minutes + 60] != [] && node == w.slots[w.minutes + 60][0]
    requires r == CascadeMinute(SetSlot(w, w.minutes + 60, [] + w.slots[w.minutes + 60][1..]), node)
    ensures r.Sound() && SameClock(w, r) && r.slots[w.minutes + 60] == w.slots[w.minutes + 60][1..]
    ensures MinuteWheel(r) == MinuteWheel(w)
  {
    var k := w.minutes + 60;
    var nodes := w.slots[k];
    assert [] + nodes[1..] == nodes[1..];
    var w1 := CascadeMinute(w, node);
    CascadeMinutesSound(w, [node]);
    assert [node][1..] == [];
    assert CascadeMinutes(w, [node]) == w1;
    CascadeMinuteKeepsSlot(w, node, k, nodes[1..]);
    assert r == SetSlot(w1, k, nodes[1..]);
    CascadeMinutesIgnoreSlot(w1, nodes[1..], k, nodes[1..]);
    CascadeMinutesSound(w1, nodes[1..]);
    var x := CascadeMinutes(w1, nodes[1..]);
    assert SetSlot(SetSlot(x, k, nodes[1..]), k, []) == SetSlot(x, k, []);
  }

  lemma {:induction false} CascadeMinuteKeepsSlot(w: Wheel, node: TimerNode, k: nat, held: seq<TimerNode>)
    requires w.Sound() && 60 <= k < SLOTS && node.task.Normal()
    ensures CascadeMinute(SetSlot(w, k, held), node) == SetSlot(CascadeMinute(w, node), k, held)
  {
    if node.task.seconds != 0 {
      var s, n := node.task.seconds, NodeOf(node.task);
      assert w.slots[k := held][s := w.slots[s] + [n]] == w.slots[s := w.slots[s] + [n]][k := held];
    }
  }

  lemma {:induction false} CascadeMinutesIgnoreSlot(w: Wheel, nodes: seq<TimerNode>, k: nat, held: seq<TimerNode>)
    requires w.Sound() && 60 <= k < SLOTS && AllNormal(nodes)
    ensures CascadeMinutes(SetSlot(w, k, held), nodes) == SetSlot(CascadeMinutes(w, nodes), k, held)
    decreases nodes
  {
    if nodes != [] {
      CascadeMinuteKeepsSlot(w, nodes[0], k, held);
      CascadeMinutesIgnoreSlot(CascadeMinute(w, nodes[0]), nodes[1..], k, held);
    }
  }

  lemma {:induction false} WaitingStep(nodes: seq<TimerNode>, i: nat)
    requires i < |nodes|
    ensures Waiting(nodes[..i + 1])
         == Waiting(nodes[..i]) + if nodes[i].round != 0 then [nodes[i].(round := nodes[i].round - 1)] else []
    decreases i
  {
    if i == 0 {
      assert nodes[..1] == [nodes[0]] && [nodes[0]][1..] == [];
    } else {
      WaitingStep(nodes[1..], i - 1);
      assert nodes[..i + 1][1..] == nodes[1..][..i] && nodes[..i][1..] == nodes[1..][..i - 1];
    }
  }

  /**
   The hour loop after `done` nodes: those that wait one more day stand in front, the others
   are gone from the slot, and what is left to do gives what was to be done.
   */
  ghost predicate HourLoop(start: Wheel, w: Wheel, k: nat, done: nat, i: nat) {
    && start.Sound() && w.Sound() && SameClock(start, w) && 120 <= k < SLOTS && done <= |start.slots[k]|
    && var nodes := start.slots[k];
      && i == |Waiting(nodes[..done])|
      && w.slots[k] == Waiting(nodes[..done]) + nodes[done..]
      && CascadeHours(SetSlot(w, k, nodes), nodes[done..]) == CascadeHours(start, nodes)
  }

  lemma {:induction false} HourLoopStarts(start: Wheel, k: nat)
    requires start.Sound() && 120 <= k < SLOTS
    ensures HourLoop(start, start, k, 0, 0)
  {
    var nodes := start.slots[k];
    assert nodes[..0] == [] && nodes[0..] == nodes && [] + nodes == nodes;
    assert SetSlot(start, k, nodes) == start;
  }

  lemma {:induction false} HourLoopWaits(start: Wheel, w: Wheel, r: Wheel, k: nat, done: nat, i: nat)
    requires HourLoop(start, w, k, done, i) && i < |w.slots[k]| && w.slots[k][i].round != 0
    requires r == SetSlot(w, k, w.slots[k][i := w.slots[k][i].(round := w.slots[k][i].round - 1)])
    ensures HourLoop(start, r, k, done + 1, i + 1)
  {
    var nodes := start.slots[k];
    WaitingStep(nodes, done);
    assert nodes[done..][1..] == nodes[done + 1..];
    assert CascadeHour(SetSlot(w, k, nodes), nodes[done]) == SetSlot(w, k, nodes);
    assert SetSlot(r, k, nodes) == SetSlot(w, k, nodes);
  }

  lemma {:induction false} HourLoopMoves(start: Wheel, w: Wheel, r: Wheel, k: nat, done: nat, i: nat)
    requires HourLoop(start, w, k, done, i) && i < |w.slots[k]| && w.slots[k][i].round == 0
    requires r == CascadeHour(SetSlot(w, k, w.slots[k][..i] + w.slots[k][i + 1..]), w.slots[k][i])
    ensures HourLoop(start, r, k, done + 1, i)
  {
    var nodes, node := start.slots[k], w.slots[k][i];
    assert node == nodes[done];
    WaitingStep(nodes, done);
    assert nodes[done..][1..] == nodes[done + 1..];
    var rest := w.slots[k][..i] + w.slots[k][i + 1..];
    assert rest == Waiting(nodes[..done + 1]) + nodes[done + 1..];
    CascadeHourKeepsSlot(w, node, k, rest);
    CascadeHourKeepsSlot(w, node, k, nodes);
    CascadeHoursSound(w, [node]);
    assert [node][1..] == [] && CascadeHours(w, [node]) == CascadeHour(w, node);
    assert SetSlot(r, k, nodes) == SetSlot(CascadeHour(w, node), k, nodes);
  }

  lemma {:induction false} HourLoopEnds(start: Wheel, w: Wheel, k: nat, done: nat, i: nat)
    requires HourLoop(start, w, k, done, i) && i >= |w.slots[k]|
    ensures SetSlot(CascadeHours(start, start.slots[k]), k, Waiting(start.slots[k])) == w
  {
    var nodes := start.slots[k];
    assert nodes[..done] == nodes && nodes[done..] == [];
    assert w.slots[k] == Waiting(nodes) + [] == Waiting(nodes);
    assert SetSlot(SetSlot(w, k, nodes), k, Waiting(nodes)) == w;
  }

  lemma {:induction false} CascadeHourKeepsSlot(w: Wheel, node: TimerNode, k: nat, held: seq<TimerNode>)
    requires |w.slots| == SLOTS && node.task.Normal() && 120 <= k < SLOTS
    ensures CascadeHour(SetSlot(w, k, held), node) == SetSlot(CascadeHour(w, node), k, held)
    ensures CascadeHour(w, node).slots[k] == w.slots[k]
  {
    var n := NodeOf(node.task);
    var s := if node.task.minutes != 0 then node.task.minutes + 59 else node.task.seconds;
    assert w.slots[k := held][s := w.slots[s] + [n]] == w.slots[s := w.slots[s] + [n]][k := held];
  }
}
