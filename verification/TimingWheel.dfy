/**
 The hierarchical timing wheel: 60 second slots, 60 minute slots and 24 hour slots in one
 table of 144 lists, a record table of repeating tasks, and a clock counted in hours,
 minutes and seconds.

 This module gives the wheel as a value and each operation as a function on that value.
 TimeWheelTimer.dfy holds the class whose loops are proved to compute these functions;
 DeadlineTable.dfy holds the specification the wheel is proved to meet.
 */
module TimingWheel {

  const SECOND_SLOTS: nat := 60
  const MINUTE_SLOTS: nat := 60
  const HOUR_SLOTS: nat := 24
  const SLOTS: nat := SECOND_SLOTS + MINUTE_SLOTS + HOUR_SLOTS

  /** A submitted task.  `callable` says whether its function object holds a function. */
  datatype TimerTask = TimerTask(
    hours: nat, minutes: nat, seconds: nat, cycle: int, id: string, callable: bool)
  {
    predicate Normal() { minutes < 60 && seconds < 60 }

    function Delay(): nat { 3600 * hours + 60 * minutes + seconds }

    /** Turns the delay into an absolute position.  The minute field does not receive the
        carry out of the seconds, although the hour field receives the one out of the minutes. */
    function Offset(hrs: nat, mins: nat, secs: nat): TimerTask {
      var carryMin := (seconds + secs) / 60;
      var carryHr := (minutes + mins + carryMin) / 60;
      this.(hours := hours + hrs + carryHr, minutes := (minutes + mins) % 60, seconds := (seconds + secs) % 60)
    }
  }

  /** The task constructor carries seconds into minutes and minutes into hours. */
  function MakeTask(hrs: nat, mins: nat, secs: nat, cycle: int, id: string, callable: bool): (t: TimerTask)
    ensures t.Normal()
    ensures t.Delay() == 3600 * hrs + 60 * mins + secs
    ensures t.cycle == cycle && t.id == id && t.callable == callable
  {
    var minCarry := secs / 60;
    TimerTask(hrs + (mins + minCarry) / 60, (mins + minCarry) % 60, secs % 60, cycle, id, callable)
  }

  /** A node of a slot list: a task whose fields are absolute, and the full days it still waits. */
  datatype TimerNode = TimerNode(task: TimerTask, round: nat)

  function NodeOf(task: TimerTask): TimerNode {
    TimerNode(task, if task.hours >= 24 then task.hours / 24 else 0)
  }

  /** One call of a task's function, with the reading of the clock fields at that moment. */
  datatype Run = Run(id: string, clock: nat)

  datatype Wheel = Wheel(
    hours: nat, minutes: nat, seconds: nat,
    slots: seq<seq<TimerNode>>, registered: map<string, TimerTask>, log: seq<Run>)
  {
    function Clock(): nat { 3600 * hours + 60 * minutes + seconds }

    predicate Sound() {
      && |slots| == SLOTS
      && (forall k, i :: 0 <= k < SLOTS && 0 <= i < |slots[k]| ==> slots[k][i].task.Normal())
      && (forall id :: id in registered ==> registered[id].Normal() && registered[id].id == id)
    }

    predicate Valid() { Sound() && seconds < 60 && minutes < 60 }
  }

  function EmptyWheel(): (w: Wheel)
    ensures w.Valid()
  {
    Wheel(0, 0, 0, seq(SLOTS, _ => []), map[], [])
  }

  function SetSlot(w: Wheel, k: nat, nodes: seq<TimerNode>): Wheel
    requires k < |w.slots|
  {
    w.(slots := w.slots[k := nodes])
  }

  function Push(w: Wheel, k: nat, node: TimerNode): Wheel
    requires k < |w.slots|
  {
    SetSlot(w, k, w.slots[k] + [node])
  }

  /** The slot a task submitted now is put in. */
  function SlotFor(w: Wheel, task: TimerTask): (k: nat)
    requires task.Delay() > 0
    ensures k < SLOTS
  {
    if task.hours != 0 then (task.hours + w.hours - 1) % HOUR_SLOTS + SECOND_SLOTS + MINUTE_SLOTS
    else if task.minutes != 0 then (task.minutes + w.minutes - 1) % MINUTE_SLOTS + SECOND_SLOTS
    else (task.seconds + w.seconds) % SECOND_SLOTS
  }

  function AddNode(w: Wheel, task: TimerTask): (r: Wheel)
    requires |w.slots| == SLOTS
  {
    if task.Delay() == 0 then w
    else Push(w, SlotFor(w, task), NodeOf(task.Offset(w.hours, w.minutes, w.seconds)))
  }

  function Erase(w: Wheel, id: string): Wheel { w.(registered := w.registered - {id}) }

  /** The record a repeating task re-arms from: its count goes down when it is positive. */
  function Countdown(task: TimerTask): TimerTask {
    if task.cycle > 0 then task.(cycle := task.cycle - 1) else task
  }

  function Repeat(w: Wheel, id: string): Wheel
    requires |w.slots| == SLOTS
  {
    if id !in w.registered then w
    else
      var next := Countdown(w.registered[id]);
      AddNode(w.(registered := w.registered[id := next]), next)
  }

  function RunTask(w: Wheel, task: TimerTask): Wheel {
    if task.callable then w.(log := w.log + [Run(task.id, w.Clock())]) else w
  }

  /** A node of the second wheel runs, then its task is forgotten or re-armed. */
  function FireNode(w: Wheel, node: TimerNode): (r: Wheel)
    requires |w.slots| == SLOTS
    ensures |r.slots| == SLOTS
  {
    var w1 := RunTask(w, node.task);
    if node.task.cycle == 1 then Erase(w1, node.task.id)
    else if node.task.cycle > 1 || node.task.cycle < 0 then Repeat(w1, node.task.id)
    else w1
  }

  function FireNodes(w: Wheel, nodes: seq<TimerNode>): (r: Wheel)
    requires |w.slots| == SLOTS
    ensures |r.slots| == SLOTS
    decreases nodes
  {
    if nodes == [] then w else FireNodes(FireNode(w, nodes[0]), nodes[1..])
  }

  function SecondWheel(w: Wheel): (r: Wheel)
    requires |w.slots| == SLOTS && w.seconds < SECOND_SLOTS
    ensures |r.slots| == SLOTS
  {
    SetSlot(FireNodes(w, w.slots[w.seconds]), w.seconds, [])
  }

  /** At a minute rollover a node without target seconds runs; any other moves to the second wheel. */
  function CascadeMinute(w: Wheel, node: TimerNode): (r: Wheel)
    requires |w.slots| == SLOTS && node.task.Normal()
    ensures |r.slots| == SLOTS
  {
    if node.task.seconds == 0 then RunTask(w, node.task)
    else Push(w, node.task.seconds, NodeOf(node.task))
  }

  predicate AllNormal(nodes: seq<TimerNode>) { forall i :: 0 <= i < |nodes| ==> nodes[i].task.Normal() }

  function CascadeMinutes(w: Wheel, nodes: seq<TimerNode>): (r: Wheel)
    requires |w.slots| == SLOTS && AllNormal(nodes)
    ensures |r.slots| == SLOTS
    decreases nodes
  {
    if nodes == [] then w else CascadeMinutes(CascadeMinute(w, nodes[0]), nodes[1..])
  }

  function MinuteWheel(w: Wheel): (r: Wheel)
    requires w.Sound() && w.minutes < MINUTE_SLOTS
    ensures |r.slots| == SLOTS
  {
    var k := w.minutes + SECOND_SLOTS;
    SetSlot(CascadeMinutes(w, w.slots[k]), k, [])
  }

  /** At an hour rollover a node with days left stays; the others move down one wheel, two, or run. */
  function CascadeHour(w: Wheel, node: TimerNode): (r: Wheel)
    requires |w.slots| == SLOTS && node.task.Normal()
    ensures |r.slots| == SLOTS
  {
    if node.round != 0 then w
    else if node.task.minutes != 0 then Push(w, node.task.minutes + SECOND_SLOTS - 1, NodeOf(node.task))
    else if node.task.seconds != 0 then Push(w, node.task.seconds, NodeOf(node.task))
    else RunTask(w, node.task)
  }

  function CascadeHours(w: Wheel, nodes: seq<TimerNode>): (r: Wheel)
    requires |w.slots| == SLOTS && AllNormal(nodes)
    ensures |r.slots| == SLOTS
    decreases nodes
  {
    if nodes == [] then w else CascadeHours(CascadeHour(w, nodes[0]), nodes[1..])
  }

  /** The nodes that stay in an hour slot, one day nearer. */
  function Waiting(nodes: seq<TimerNode>): seq<TimerNode> {
    if nodes == [] then []
    else if nodes[0].round != 0 then [nodes[0].(round := nodes[0].round - 1)] + Waiting(nodes[1..])
    else Waiting(nodes[1..])
  }

  function HourWheel(w: Wheel): (r: Wheel)
    requires w.Sound()
    ensures |r.slots| == SLOTS
  {
    var k := w.hours % HOUR_SLOTS + MINUTE_SLOTS + SECOND_SLOTS;
    SetSlot(CascadeHours(w, w.slots[k]), k, Waiting(w.slots[k]))
  }

  /** One second of the clock thread. */
  function Tick(w: Wheel): (r: Wheel)
    requires w.Valid()
    ensures r.Valid()
  {
    SecondWheelSound(w);
    var w1 := SecondWheel(w);
    var w2 := w1.(seconds := w1.seconds + 1);
    if w2.seconds < SECOND_SLOTS then w2
    else
      MinuteWheelSound(w2);
      var w3 := MinuteWheel(w2);
      var w4 := w3.(seconds := 0, minutes := w3.minutes + 1);
      if w4.minutes < MINUTE_SLOTS then w4
      else
        HourWheelSound(w4);
        var w5 := HourWheel(w4);
        w5.(minutes := 0, hours := w5.hours + 1)
  }

  /** The registering thread takes one task: a count of 0 forgets the id, any other but 1 is recorded. */
  function Submit(w: Wheel, task: TimerTask): (r: Wheel)
    requires w.Valid() && task.Normal()
    ensures r.Valid()
  {
    if task.cycle == 0 then Erase(w, task.id)
    else if task.cycle != 1 && task.id !in w.registered then
      AddNode(w.(registered := w.registered[task.id := task]), task)
    else AddNode(w, task)
  }

  datatype Event = Submitted(task: TimerTask) | Ticked

  predicate NormalEvents(events: seq<Event>) {
    forall i :: 0 <= i < |events| && events[i].Submitted? ==> events[i].task.Normal()
  }

  function Apply(w: Wheel, event: Event): (r: Wheel)
    requires w.Valid() && (event.Submitted? ==> event.task.Normal())
    ensures r.Valid()
  {
    match event
    case Submitted(task) => Submit(w, task)
    case Ticked => Tick(w)
  }

  /** A whole run: any interleaving of submissions and seconds. */
  function RunWheel(w: Wheel, events: seq<Event>): (r: Wheel)
    requires w.Valid() && NormalEvents(events)
    ensures r.Valid()
    decreases events
  {
    if events == [] then w else RunWheel(Apply(w, events[0]), events[1..])
  }

  /** A node without a count runs and is neither re-armed nor forgotten: such nodes come from a record that ran out. */
  lemma {:induction false} LastCountOnlyRuns(w: Wheel, node: TimerNode)
    requires |w.slots| == SLOTS && node.task.cycle == 0
    ensures FireNode(w, node).slots == w.slots && FireNode(w, node).registered == w.registered
  {
  }

  /** Re-arming counts a record down to 0 and not below, leaves an endless one, and adds what the record then says. */
  lemma {:induction false} RepeatCounts(w: Wheel, id: string)
    requires w.Sound() && id in w.registered
    ensures var was, w' := w.registered[id], Repeat(w, id);
      && id in w'.registered && w'.registered.Keys == w.registered.Keys
      && w'.registered[id] == was.(cycle := if was.cycle >= 1 then was.cycle - 1 else was.cycle)
      && w' == AddNode(w.(registered := w'.registered), w'.registered[id])
  {
  }

  // ---- soundness of the phases ----

  predicate SameClock(w: Wheel, r: Wheel) {
    r.hours == w.hours && r.minutes == w.minutes && r.seconds == w.seconds
  }

  lemma FireNodesSound(w: Wheel, nodes: seq<TimerNode>)
    requires w.Sound()
    ensures FireNodes(w, nodes).Sound() && SameClock(w, FireNodes(w, nodes))
    decreases nodes
  {
    if nodes != [] { FireNodesSound(FireNode(w, nodes[0]), nodes[1..]); }
  }

  lemma SecondWheelSound(w: Wheel)
    requires w.Sound() && w.seconds < SECOND_SLOTS
    ensures SecondWheel(w).Sound() && SameClock(w, SecondWheel(w))
  {
    FireNodesSound(w, w.slots[w.seconds]);
  }

  lemma CascadeMinutesSound(w: Wheel, nodes: seq<TimerNode>)
    requires w.Sound() && AllNormal(nodes)
    ensures CascadeMinutes(w, nodes).Sound() && SameClock(w, CascadeMinutes(w, nodes))
    decreases nodes
  {
    if nodes != [] { CascadeMinutesSound(CascadeMinute(w, nodes[0]), nodes[1..]); }
  }

  lemma MinuteWheelSound(w: Wheel)
    requires w.Sound() && w.minutes < MINUTE_SLOTS
    ensures MinuteWheel(w).Sound() && SameClock(w, MinuteWheel(w))
  {
    CascadeMinutesSound(w, w.slots[w.minutes + SECOND_SLOTS]);
  }

  lemma CascadeHoursSound(w: Wheel, nodes: seq<TimerNode>)
    requires w.Sound() && AllNormal(nodes)
    ensures CascadeHours(w, nodes).Sound() && SameClock(w, CascadeHours(w, nodes))
    decreases nodes
  {
    if nodes != [] { CascadeHoursSound(CascadeHour(w, nodes[0]), nodes[1..]); }
  }

  lemma WaitingNormal(nodes: seq<TimerNode>)
    requires AllNormal(nodes)
    ensures AllNormal(Waiting(nodes))
  {
  }

  lemma HourWheelSound(w: Wheel)
    requires w.Sound()
    ensures HourWheel(w).Sound() && SameClock(w, HourWheel(w))
  {
    var k := w.hours % HOUR_SLOTS + MINUTE_SLOTS + SECOND_SLOTS;
    CascadeHoursSound(w, w.slots[k]);
    WaitingNormal(w.slots[k]);
  }
}
