/**
 The wheel refines the deadline table.  Every node stands for one table entry, whose due
 value is read off the node's slot, its rounds and its target fields; a tick of the wheel is a
 tick of the table, and no cascade loses, duplicates or delays an entry.
 */
module WheelRefinement {
  import opened Multisets
  import opened TimingWheel
  import opened DeadlineTable

  /** How far each wheel has been checked: the next second, minute and hour to come up. */
  datatype Cursor = Cursor(n: nat, a: nat, h: nat)

  /** The first value from `x` on that is `r` modulo `p`. */
  function NextAt(x: nat, r: nat, p: nat): nat
    requires r < p
  {
    if x % p <= r then x - x % p + r else x - x % p + r + p
  }

  function DueAt(k: nat, node: TimerNode, c: Cursor): nat
    requires k < SLOTS
  {
    if k < 60 then NextAt(c.n, k, 60)
    else if k < 120 then 60 * (NextAt(c.a, k - 60, 60) + 1) + node.task.seconds
    else 3600 * (NextAt(c.h, k - 120, 24) + 24 * node.round + 1) + 60 * node.task.minutes + node.task.seconds
  }

  /** The table entry a node in slot `k` stands for. */
  function EntryAt(k: nat, node: TimerNode, c: Cursor): Entry
    requires k < SLOTS
  {
    Entry(node.task.id, node.task.cycle, node.task.callable, DueAt(k, node, c), k >= 60 && node.task.seconds == 0)
  }

  function EntriesOf(nodes: seq<TimerNode>, k: nat, c: Cursor): (es: seq<Entry>)
    requires k < SLOTS
    ensures |es| == |nodes| && forall i :: 0 <= i < |nodes| ==> es[i] == EntryAt(k, nodes[i], c)
  {
    seq(|nodes|, i requires 0 <= i < |nodes| => EntryAt(k, nodes[i], c))
  }

  /** The entries of slots `from` on. */
  function Entries(slots: seq<seq<TimerNode>>, c: Cursor, from: nat): multiset<Entry>
    requires |slots| == SLOTS && from <= SLOTS
    decreases SLOTS - from
  {
    if from == SLOTS then multiset{} else multiset(EntriesOf(slots[from], from, c)) + Entries(slots, c, from + 1)
  }

  function CursorOf(w: Wheel): Cursor { Cursor(w.Clock(), 60 * w.hours + w.minutes, w.hours) }

  function TableWith(w: Wheel, now: nat, c: Cursor): Table
    requires |w.slots| == SLOTS
  {
    Table(now, Entries(w.slots, c, 0), w.registered, w.log)
  }

  /** The deadline table a wheel stands for between ticks. */
  function Abs(w: Wheel): Table
    requires |w.slots| == SLOTS
  {
    TableWith(w, w.Clock(), CursorOf(w))
  }

  // ---- arithmetic of slots ----

  lemma {:induction false} MulGrows(p: int, z: int)
    requires p > 0
    ensures z >= 1 ==> p * z >= p
    ensures z <= -1 ==> p * z <= -p
  {
  }

  lemma {:induction false} ModUnique(x: int, q: int, r: int, p: nat)
    requires 0 <= r < p && x == p * q + r
    ensures x % p == r
  {
    MulGrows(p, q - x / p);
    assert p * (q - x / p) == x % p - r;
  }

  lemma {:induction false} ModStep(x: nat, p: nat)
    requires p > 0
    ensures (x + 1) % p == if x % p + 1 < p then x % p + 1 else 0
  {
    if x % p + 1 < p {
      ModUnique(x + 1, x / p, x % p + 1, p);
    } else {
      assert x + 1 == p * (x / p + 1);
      ModUnique(x + 1, x / p + 1, 0, p);
    }
  }

  lemma {:induction false} ModAdd(x: nat, d: nat, p: nat)
    requires p > 0
    ensures (x + d) % p == if x % p + d % p < p then x % p + d % p else x % p + d % p - p
  {
    var q := x / p + d / p;
    assert x + d == p * q + (x % p + d % p);
    if x % p + d % p < p {
      ModUnique(x + d, q, x % p + d % p, p);
    } else {
      assert x + d == p * (q + 1) + (x % p + d % p - p);
      ModUnique(x + d, q + 1, x % p + d % p - p, p);
    }
  }

  lemma {:induction false} NextAtShift(x: nat, d: nat, p: nat)
    requires p > 0
    ensures NextAt(x, (x + d) % p, p) == x + d % p
  {
    ModAdd(x, d, p);
  }

  lemma {:induction false} NextAtHere(x: nat, r: nat, p: nat)
    requires r < p
    ensures NextAt(x, r, p) >= x && (NextAt(x, r, p) == x <==> x % p == r)
  {
  }

  /** A slot that is not the current one keeps its due value when the cursor moves on. */
  lemma {:induction false} NextAtStep(x: nat, r: nat, p: nat)
    requires r < p && x % p != r
    ensures NextAt(x + 1, r, p) == NextAt(x, r, p)
  {
    ModStep(x, p);
  }

  lemma {:induction false} NextAtAgain(x: nat, p: nat)
    requires p > 0
    ensures NextAt(x + 1, x % p, p) == x + p
  {
    ModStep(x, p);
  }

  // ---- a node is placed where the table says it is due ----

  lemma {:induction false} ClockParts(w: Wheel)
    requires w.Valid()
    ensures w.Clock() % 60 == w.seconds && w.Clock() / 60 == 60 * w.hours + w.minutes
    ensures w.Clock() / 3600 == w.hours && w.Clock() / 60 % 60 == w.minutes
  {
    Multiple60(60 * w.hours + w.minutes, w.seconds);
    Multiple60(w.hours, w.minutes);
    assert w.Clock() / 3600 == w.Clock() / 60 / 60;
  }

  lemma {:induction false} WrapIsMod(x: nat, y: nat)
    requires x <= 60 && y < 60
    ensures (x + y) / 60 == Carry(x, y) && (x < 60 ==> (x + y) % 60 == Wrap(x, y))
  {
  }

  lemma {:induction false} OffsetFields(w: Wheel, task: TimerTask)
    requires w.Valid() && task.Normal()
    ensures var t := task.Offset(w.hours, w.minutes, w.seconds);
      && t.seconds == Wrap(task.seconds, w.seconds) && t.minutes == Wrap(task.minutes, w.minutes)
      && t.hours == task.hours + w.hours + Carry(task.minutes + Carry(task.seconds, w.seconds), w.minutes)
      && t.id == task.id && t.cycle == task.cycle && t.callable == task.callable
  {
    WrapIsMod(task.seconds, w.seconds);
    WrapIsMod(task.minutes, w.minutes);
    WrapIsMod(task.minutes + Carry(task.seconds, w.seconds), w.minutes);
  }

  lemma {:induction false} PlacedHour(w: Wheel, task: TimerTask)
    requires w.Valid() && task.Normal() && task.hours != 0
    ensures EntryAt(SlotFor(w, task), NodeOf(task.Offset(w.hours, w.minutes, w.seconds)), CursorOf(w))
         == EntryFor(w.Clock(), task)
  {
    hide NextAt, Wrap, Carry, TimerTask.Offset;
    ClockParts(w);
    OffsetFields(w, task);
    NextAtShift(w.hours, task.hours - 1, 24);
    assert w.hours + (task.hours - 1) == task.hours + w.hours - 1;
  }

  lemma {:induction false} PlacedMinute(w: Wheel, task: TimerTask)
    requires w.Valid() && task.Normal() && task.hours == 0 && task.minutes != 0
    ensures EntryAt(SlotFor(w, task), NodeOf(task.Offset(w.hours, w.minutes, w.seconds)), CursorOf(w))
         == EntryFor(w.Clock(), task)
  {
    hide NextAt, Wrap, Carry, TimerTask.Offset;
    ClockParts(w);
    OffsetFields(w, task);
    var a := 60 * w.hours + w.minutes;
    NextAtShift(a, task.minutes - 1, 60);
    assert (a + (task.minutes - 1)) % 60 == (task.minutes + w.minutes - 1) % 60;
  }

  lemma {:induction false} SecondSlot(w: Wheel, task: TimerTask)
    requires w.Valid() && task.Normal() && task.hours == 0 && task.minutes == 0 && task.seconds != 0
    ensures SlotFor(w, task) == (w.Clock() + task.seconds) % 60 && SlotFor(w, task) != w.seconds
  {
    ClockParts(w);
    ModAdd(w.Clock(), task.seconds, 60);
    assert SlotFor(w, task) == (task.seconds + w.seconds) % 60;
  }

  lemma {:induction false} PlacedSecond(w: Wheel, task: TimerTask)
    requires w.Valid() && task.Normal() && task.hours == 0 && task.minutes == 0 && task.seconds != 0
    ensures EntryAt(SlotFor(w, task), NodeOf(task.Offset(w.hours, w.minutes, w.seconds)), CursorOf(w))
         == EntryFor(w.Clock(), task)
    ensures SlotFor(w, task) != w.seconds
  {
    hide NextAt, TimerTask.Offset, Wrap, Carry, DueHour, SlotFor, Wheel.Clock;
    SecondSlot(w, task);
    OffsetFields(w, task);
    NextAtShift(w.Clock(), task.seconds, 60);
  }

  lemma {:induction false} Placed(w: Wheel, task: TimerTask)
    requires w.Valid() && task.Normal() && task.Delay() > 0
    ensures EntryAt(SlotFor(w, task), NodeOf(task.Offset(w.hours, w.minutes, w.seconds)), CursorOf(w))
         == EntryFor(w.Clock(), task)
    ensures SlotFor(w, task) != w.seconds
  {
    if task.hours != 0 {
      PlacedHour(w, task);
    } else if task.minutes != 0 {
      PlacedMinute(w, task);
    } else {
      PlacedSecond(w, task);
    }
  }

  // ---- sums over the slots ----

  lemma {:induction false} Cancel(x: multiset<Entry>, y: multiset<Entry>, m: multiset<Entry>, d: multiset<Entry>)
    requires x + m == y + (m + d)
    ensures x == y + d
  {
    forall e ensures x[e] == (y + d)[e] {
      assert (x + m)[e] == (y + (m + d))[e];
    }
  }

  lemma {:induction false} EntriesUpdate(slots: seq<seq<TimerNode>>, c: Cursor, from: nat, k: nat, nodes: seq<TimerNode>)
    requires |slots| == SLOTS && from <= k < SLOTS
    ensures Entries(slots[k := nodes], c, from) + multiset(EntriesOf(slots[k], k, c))
         == Entries(slots, c, from) + multiset(EntriesOf(nodes, k, c))
    decreases SLOTS - from
  {
    hide DueAt, EntryAt, EntriesOf;
    if from < k {
      EntriesUpdate(slots, c, from + 1, k, nodes);
      Exchange(multiset(EntriesOf(slots[from], from, c)), Entries(slots[k := nodes], c, from + 1),
               Entries(slots, c, from + 1), multiset(EntriesOf(slots[k], k, c)), multiset(EntriesOf(nodes, k, c)));
    } else {
      EntriesSame(slots, slots[k := nodes], c, c, from + 1);
    }
  }

  lemma {:induction false} EntriesSame(slots: seq<seq<TimerNode>>, slots': seq<seq<TimerNode>>, c: Cursor, c': Cursor, from: nat)
    requires |slots| == |slots'| == SLOTS && from <= SLOTS
    requires forall k :: from <= k < SLOTS ==> EntriesOf(slots[k], k, c) == EntriesOf(slots'[k], k, c')
    ensures Entries(slots, c, from) == Entries(slots', c', from)
    decreases SLOTS - from
  {
    if from < SLOTS { EntriesSame(slots, slots', c, c', from + 1); }
  }

  lemma {:induction false} EntriesNone(slots: seq<seq<TimerNode>>, c: Cursor, from: nat, e: Entry)
    requires |slots| == SLOTS && from <= SLOTS
    requires forall k :: from <= k < SLOTS ==> e !in EntriesOf(slots[k], k, c)
    ensures Entries(slots, c, from)[e] == 0
    decreases SLOTS - from
  {
    if from < SLOTS {
      EntriesNone(slots, c, from + 1, e);
      assert e !in multiset(EntriesOf(slots[from], from, c));
    }
  }

  lemma {:induction false} EntriesCleared(slots: seq<seq<TimerNode>>, c: Cursor, k: nat)
    requires |slots| == SLOTS && k < SLOTS
    ensures Entries(slots, c, 0) == Entries(slots[k := []], c, 0) + multiset(EntriesOf(slots[k], k, c))
  {
    EntriesUpdate(slots, c, 0, k, []);
    assert EntriesOf([], k, c) == [];
  }

  lemma {:induction false} EntriesPushed(slots: seq<seq<TimerNode>>, c: Cursor, k: nat, node: TimerNode)
    requires |slots| == SLOTS && k < SLOTS
    ensures Entries(slots[k := slots[k] + [node]], c, 0) == Entries(slots, c, 0) + multiset{EntryAt(k, node, c)}
  {
    hide DueAt, EntryAt, Entries;
    EntriesUpdate(slots, c, 0, k, slots[k] + [node]);
    assert EntriesOf(slots[k] + [node], k, c) == EntriesOf(slots[k], k, c) + [EntryAt(k, node, c)];
    Cancel(Entries(slots[k := slots[k] + [node]], c, 0), Entries(slots, c, 0),
           multiset(EntriesOf(slots[k], k, c)), multiset{EntryAt(k, node, c)});
  }

  // ---- the second wheel ----

  lemma {:induction false} AddRefines(w: Wheel, task: TimerTask)
    requires w.Valid() && task.Normal()
    ensures Abs(AddNode(w, task)) == Add(Abs(w), task)
    ensures AddNode(w, task).slots[w.seconds] == w.slots[w.seconds]
  {
    hide Entries, Due, Rollover, DueAt, EntryAt, SlotFor, NodeOf;
    if task.Delay() > 0 {
      Placed(w, task);
      EntriesPushed(w.slots, CursorOf(w), SlotFor(w, task), NodeOf(task.Offset(w.hours, w.minutes, w.seconds)));
    }
  }

  lemma {:induction false} SubmitRefines(w: Wheel, task: TimerTask)
    requires w.Valid() && task.Normal()
    ensures Abs(w).Keyed() && Abs(Submit(w, task)) == TableSubmit(Abs(w), task)
  {
    hide Entries, Due, Rollover, DueAt, EntryAt, AddNode;
    if task.cycle != 0 {
      if task.cycle != 1 && task.id !in w.registered {
        AddRefines(w.(registered := w.registered[task.id := task]), task);
      } else {
        AddRefines(w, task);
      }
    }
  }

  lemma {:induction false} CurrentEntry(w: Wheel, node: TimerNode)
    requires w.Valid()
    ensures var e := EntryAt(w.seconds, node, CursorOf(w));
      && e.id == node.task.id && e.cycle == node.task.cycle
      && Logged(w.log, e) == RunTask(w, node.task).log
  {
    hide NextAt;
    ClockParts(w);
    NextAtHere(w.Clock(), w.seconds, 60);
  }

  /** Re-arming a recorded task counts it down and adds its entry again. */
  lemma {:induction false} RepeatRefines(w: Wheel, id: string)
    requires w.Valid() && id in w.registered
    ensures var next := Countdown(w.registered[id]);
      Abs(Repeat(w, id)) == Add(Abs(w).(registered := w.registered[id := next]), next)
    ensures Repeat(w, id).slots[w.seconds] == w.slots[w.seconds]
  {
    hide Entries, Due, Rollover, EntryFor, AddNode;
    var next := Countdown(w.registered[id]);
    AddRefines(w.(registered := w.registered[id := next]), next);
  }

  lemma {:induction false} FireNodeSound(w: Wheel, node: TimerNode)
    requires w.Valid()
    ensures FireNode(w, node).Valid() && SameClock(w, FireNode(w, node))
  {
    FireNodesSound(w, [node]);
    assert [node][1..] == [];
    assert FireNodes(w, [node]) == FireNode(w, node);
  }

  lemma {:induction false} FireNodeRefines(w: Wheel, node: TimerNode)
    requires w.Valid()
    ensures FireNode(w, node).Valid() && SameClock(w, FireNode(w, node))
    ensures FireNode(w, node).slots[w.seconds] == w.slots[w.seconds]
    ensures Abs(FireNode(w, node)) == Fire(Abs(w), EntryAt(w.seconds, node, CursorOf(w)))
  {
    hide Entries, Add, EntryAt, Repeat, Logged;
    FireNodeSound(w, node);
    CurrentEntry(w, node);
    if node.task.id in w.registered { RepeatRefines(RunTask(w, node.task), node.task.id); }
    if node.task.id !in w.registered { UnknownNotRepeated(RunTask(w, node.task), node.task.id); }
  }

  lemma {:induction false} UnknownNotRepeated(w: Wheel, id: string)
    requires |w.slots| == SLOTS && id !in w.registered
    ensures Repeat(w, id) == w
  {
  }

  lemma {:induction false} FireNodesRefines(w: Wheel, nodes: seq<TimerNode>)
    requires w.Valid()
    ensures FireNodes(w, nodes).Valid() && SameClock(w, FireNodes(w, nodes))
    ensures FireNodes(w, nodes).slots[w.seconds] == w.slots[w.seconds]
    ensures Abs(w).Keyed() && Abs(FireNodes(w, nodes)) == FireAll(Abs(w), EntriesOf(nodes, w.seconds, CursorOf(w)))
    decreases nodes
  {
    hide Entries, Due, Rollover, EntryAt, AddNode, FireNode, Fire;
    if nodes != [] {
      FireNodeRefines(w, nodes[0]);
      FireNodesRefines(FireNode(w, nodes[0]), nodes[1..]);
      assert EntriesOf(nodes, w.seconds, CursorOf(w))[1..] == EntriesOf(nodes[1..], w.seconds, CursorOf(w));
    }
  }

  /** A re-armed node never lands in the slot being drained, whatever that slot holds. */
  lemma {:induction false} FireNodesFrame(w: Wheel, nodes: seq<TimerNode>, held: seq<TimerNode>)
    requires w.Valid() && AllNormal(held)
    ensures FireNodes(SetSlot(w, w.seconds, held), nodes) == SetSlot(FireNodes(w, nodes), w.seconds, held)
    decreases nodes
  {
    if nodes != [] {
      var w1 := FireNode(w, nodes[0]);
      FireNodeRefines(w, nodes[0]);
      FireNodeFrame(w, nodes[0], held);
      FireNodesFrame(w1, nodes[1..], held);
    }
  }

  lemma {:induction false} FireNodeFrame(w: Wheel, node: TimerNode, held: seq<TimerNode>)
    requires w.Valid() && AllNormal(held)
    ensures FireNode(SetSlot(w, w.seconds, held), node) == SetSlot(FireNode(w, node), w.seconds, held)
  {
    hide EntryAt, Due, NextAt, NodeOf, TimerTask.Offset;
    var id := node.task.id;
    if node.task.cycle != 1 && node.task.cycle != 0 && id in w.registered {
      var next := Countdown(w.registered[id]);
      if next.Delay() > 0 {
        Placed(w, next);
        var k, n := SlotFor(w, next), NodeOf(next.Offset(w.hours, w.minutes, w.seconds));
        assert w.slots[w.seconds := held][k := w.slots[k] + [n]] == w.slots[k := w.slots[k] + [n]][w.seconds := held];
      }
    }
  }

  /** The entries due now in the second lane are exactly the nodes of the current second slot. */
  lemma {:induction false} DueIsCurrentSlot(w: Wheel, e: Entry)
    requires w.Valid()
    ensures multiset(EntriesOf(w.slots[w.seconds], w.seconds, CursorOf(w)))[e]
         == if DueNow(e, w.Clock()) then Entries(w.slots, CursorOf(w), 0)[e] else 0
  {
    var c, s := CursorOf(w), w.seconds;
    ClockParts(w);
    NextAtHere(c.n, s, 60);
    EntriesCleared(w.slots, c, s);
    if DueNow(e, w.Clock()) {
      var slots := w.slots[s := []];
      forall k | 0 <= k < SLOTS ensures e !in EntriesOf(slots[k], k, c) {
        NotDueElsewhere(w, slots[k], k, e);
      }
      EntriesNone(slots, c, 0, e);
    } else {
      assert e !in EntriesOf(w.slots[s], s, c);
    }
  }

  lemma {:induction false} NotDueElsewhere(w: Wheel, nodes: seq<TimerNode>, k: nat, e: Entry)
    requires w.Valid() && k < SLOTS && (k != w.seconds || nodes == []) && AllNormal(nodes)
    requires DueNow(e, w.Clock())
    ensures e !in EntriesOf(nodes, k, CursorOf(w))
  {
    hide NextAt;
    var c := CursorOf(w);
    ClockParts(w);
    forall i | 0 <= i < |nodes| ensures EntryAt(k, nodes[i], c) != e {
      if k < 60 {
        NextAtHere(c.n, k, 60);
      } else if k < 120 {
        NextAtHere(c.a, k - 60, 60);
      } else {
        NextAtHere(c.h, k - 120, 24);
      }
    }
  }

  lemma {:induction false} CurrentSlotListsDue(w: Wheel)
    requires w.Valid()
    ensures ListsDueNow(EntriesOf(w.slots[w.seconds], w.seconds, CursorOf(w)), Abs(w).entries, w.Clock())
  {
    hide Entries, EntryAt, EntriesOf, DueNow;
    forall e: Entry {
      DueIsCurrentSlot(w, e);
    }
  }

  lemma {:induction false} CurrentSlotCleared(w: Wheel)
    requires w.Valid()
    ensures Abs(SetSlot(w, w.seconds, []))
         == Abs(w).(entries := Abs(w).entries - multiset(EntriesOf(w.slots[w.seconds], w.seconds, CursorOf(w))))
  {
    hide Entries, EntryAt, EntriesOf;
    EntriesCleared(w.slots, CursorOf(w), w.seconds);
  }

  /** The second wheel is the first phase of the table's tick. */
  lemma {:induction false} SecondWheelRefines(w: Wheel)
    requires w.Valid()
    ensures SecondWheel(w).Valid() && SameClock(w, SecondWheel(w)) && SecondWheel(w).slots[w.seconds] == []
    ensures var due := EntriesOf(w.slots[w.seconds], w.seconds, CursorOf(w));
      Abs(w).Keyed() && ListsDueNow(due, Abs(w).entries, w.Clock()) && Abs(SecondWheel(w)) == FirePhase(Abs(w), due)
  {
    hide Entries, EntriesOf, FireNodes, FireAll, ListsDueNow;
    var nodes := w.slots[w.seconds];
    var w0 := SetSlot(w, w.seconds, []);
    FireNodesFrame(w, nodes, []);
    FireNodesRefines(w, []);
    FireNodesRefines(w0, nodes);
    CurrentSlotListsDue(w);
    CurrentSlotCleared(w);
  }

  // ---- moving the cursors on ----

  lemma {:induction false} SecondCursorMoves(slots: seq<seq<TimerNode>>, c: Cursor)
    requires |slots| == SLOTS && slots[c.n % 60] == []
    ensures Entries(slots, c.(n := c.n + 1), 0) == Entries(slots, c, 0)
  {
    hide NextAt;
    forall k | 0 <= k < SLOTS ensures EntriesOf(slots[k], k, c) == EntriesOf(slots[k], k, c.(n := c.n + 1)) {
      if k < 60 && k != c.n % 60 { NextAtStep(c.n, k, 60); }
    }
    EntriesSame(slots, slots, c, c.(n := c.n + 1), 0);
  }

  lemma {:induction false} MinuteCursorMoves(slots: seq<seq<TimerNode>>, c: Cursor)
    requires |slots| == SLOTS && slots[60 + c.a % 60] == []
    ensures Entries(slots, c.(a := c.a + 1), 0) == Entries(slots, c, 0)
  {
    hide NextAt;
    forall k | 0 <= k < SLOTS ensures EntriesOf(slots[k], k, c) == EntriesOf(slots[k], k, c.(a := c.a + 1)) {
      if 60 <= k < 120 && k != 60 + c.a % 60 { NextAtStep(c.a, k - 60, 60); }
    }
    EntriesSame(slots, slots, c, c.(a := c.a + 1), 0);
  }

  lemma {:induction false} HourCursorMoves(slots: seq<seq<TimerNode>>, c: Cursor)
    requires |slots| == SLOTS && slots[120 + c.h % 24] == []
    ensures Entries(slots, c.(h := c.h + 1), 0) == Entries(slots, c, 0)
  {
    hide NextAt;
    forall k | 0 <= k < SLOTS ensures EntriesOf(slots[k], k, c) == EntriesOf(slots[k], k, c.(h := c.h + 1)) {
      if 120 <= k && k != 120 + c.h % 24 { NextAtStep(c.h, k - 120, 24); }
    }
    EntriesSame(slots, slots, c, c.(h := c.h + 1), 0);
  }

  // ---- the minute wheel ----

  /** The entries a minute rollover runs, in the order of the slot. */
  function RolledMinute(nodes: seq<TimerNode>, k: nat, c: Cursor): seq<Entry>
    requires k < SLOTS
  {
    if nodes == [] then []
    else (if nodes[0].task.seconds == 0 then [EntryAt(k, nodes[0], c)] else []) + RolledMinute(nodes[1..], k, c)
  }

  predicate AtMinuteRollover(w: Wheel) { w.Sound() && w.seconds == 60 && w.minutes < 60 }

  lemma {:induction false} MinuteMoveKeepsEntry(w: Wheel, node: TimerNode)
    requires AtMinuteRollover(w) && node.task.Normal()
    ensures DueAt(w.minutes + 60, node, CursorOf(w)) == w.Clock() + node.task.seconds
    ensures node.task.seconds != 0 ==>
      EntryAt(node.task.seconds, NodeOf(node.task), CursorOf(w)) == EntryAt(w.minutes + 60, node, CursorOf(w))
  {
    hide NextAt;
    var c := CursorOf(w);
    Multiple60(w.hours, w.minutes);
    NextAtHere(c.a, w.minutes, 60);
    Multiple60(c.a + 1, node.task.seconds);
    NextAtShift(c.n, node.task.seconds, 60);
  }

  lemma {:induction false} CascadeMinuteRefines(w: Wheel, node: TimerNode)
    requires AtMinuteRollover(w) && node.task.Normal()
    ensures var r, e := CascadeMinute(w, node), EntryAt(w.minutes + 60, node, CursorOf(w));
      && AtMinuteRollover(r) && SameClock(w, r) && r.registered == w.registered
      && (forall k :: 60 <= k < SLOTS ==> r.slots[k] == w.slots[k])
      && (if node.task.seconds == 0 then
            e.due == w.Clock() && r.log == Logged(w.log, e) && r.slots == w.slots
          else
            r.log == w.log && Entries(r.slots, CursorOf(w), 0) == Entries(w.slots, CursorOf(w), 0) + multiset{e})
  {
    hide NextAt, Entries;
    MinuteMoveKeepsEntry(w, node);
    if node.task.seconds != 0 {
      EntriesPushed(w.slots, CursorOf(w), node.task.seconds, NodeOf(node.task));
    }
  }

  lemma {:induction false} CascadeMinutesLog(w: Wheel, nodes: seq<TimerNode>)
    requires AtMinuteRollover(w) && AllNormal(nodes)
    ensures var r, k, c := CascadeMinutes(w, nodes), w.minutes + 60, CursorOf(w);
      && AtMinuteRollover(r) && SameClock(w, r) && r.registered == w.registered && r.slots[k] == w.slots[k]
      && r.log == LogAll(w.log, RolledMinute(nodes, k, c))
    decreases nodes
  {
    hide Entries, EntryAt, CascadeMinute, LogAll, Logged;
    var k, c := w.minutes + 60, CursorOf(w);
    if nodes == [] {
      EmptyLog(w.log);
    } else {
      CascadeMinuteRefines(w, nodes[0]);
      CascadeMinutesLog(CascadeMinute(w, nodes[0]), nodes[1..]);
      if nodes[0].task.seconds == 0 {
        LogFirst(w.log, EntryAt(k, nodes[0], c), RolledMinute(nodes[1..], k, c));
      } else {
        assert [] + RolledMinute(nodes[1..], k, c) == RolledMinute(nodes[1..], k, c);
      }
    }
  }

  lemma {:induction false} FirstEntry(nodes: seq<TimerNode>, k: nat, c: Cursor)
    requires k < SLOTS && nodes != []
    ensures multiset(EntriesOf(nodes, k, c)) == multiset{EntryAt(k, nodes[0], c)} + multiset(EntriesOf(nodes[1..], k, c))
  {
    hide EntryAt;
    assert EntriesOf(nodes, k, c) == [EntryAt(k, nodes[0], c)] + EntriesOf(nodes[1..], k, c);
  }

  lemma {:induction false} FirstRolledMinute(nodes: seq<TimerNode>, k: nat, c: Cursor)
    requires k < SLOTS && nodes != []
    ensures multiset(RolledMinute(nodes, k, c))
         == (if nodes[0].task.seconds == 0 then multiset{EntryAt(k, nodes[0], c)} else multiset{})
            + multiset(RolledMinute(nodes[1..], k, c))
  {
    hide EntryAt;
  }

  /** No node is lost or duplicated: what a rollover runs and what it moves is what the slot held. */
  lemma {:induction false} CascadeMinutesRefines(w: Wheel, nodes: seq<TimerNode>)
    requires AtMinuteRollover(w) && AllNormal(nodes)
    ensures var r, k, c := CascadeMinutes(w, nodes), w.minutes + 60, CursorOf(w);
      Entries(r.slots, c, 0) + multiset(RolledMinute(nodes, k, c))
      == Entries(w.slots, c, 0) + multiset(EntriesOf(nodes, k, c))
    decreases nodes
  {
    hide Entries, EntryAt, CascadeMinute, RolledMinute, EntriesOf, LogAll;
    var k, c := w.minutes + 60, CursorOf(w);
    if nodes == [] {
      assert EntriesOf(nodes, k, c) == [];
      EmptyRollover(k, c, c);
    } else {
      var w1, rest := CascadeMinute(w, nodes[0]), nodes[1..];
      CascadeMinuteRefines(w, nodes[0]);
      CascadeMinutesRefines(w1, rest);
      FirstEntry(nodes, k, c);
      FirstRolledMinute(nodes, k, c);
      JoinFirst(Entries(CascadeMinutes(w, nodes).slots, c, 0), multiset(RolledMinute(rest, k, c)),
                Entries(w.slots, c, 0), Entries(w1.slots, c, 0), multiset(EntriesOf(rest, k, c)),
                multiset{EntryAt(k, nodes[0], c)});
    }
  }

  lemma {:induction false} JoinFirst(x: multiset<Entry>, rolled: multiset<Entry>, y: multiset<Entry>, y1: multiset<Entry>,
                  rest: multiset<Entry>, first: multiset<Entry>)
    requires x + rolled == y1 + rest
    ensures y1 == y ==> x + (first + rolled) == y + (first + rest)
    ensures y1 == y + first ==> x + rolled == y + (first + rest)
  {
    forall e ensures y1 == y ==> (x + (first + rolled))[e] == (y + (first + rest))[e] {
      assert (x + rolled)[e] == (y1 + rest)[e];
    }
  }

  lemma {:induction false} LogFirst(log: seq<Run>, e: Entry, rest: seq<Entry>)
    ensures LogAll(log, [e] + rest) == LogAll(Logged(log, e), rest)
  {
    assert ([e] + rest)[1..] == rest;
  }

  lemma {:induction false} RolledMinuteDue(w: Wheel, nodes: seq<TimerNode>)
    requires AtMinuteRollover(w) && AllNormal(nodes)
    ensures forall e :: e in RolledMinute(nodes, w.minutes + 60, CursorOf(w)) ==> e.rollover && e.due == w.Clock()
    decreases nodes
  {
    if nodes != [] {
      MinuteMoveKeepsEntry(w, nodes[0]);
      RolledMinuteDue(w, nodes[1..]);
    }
  }

  /** Nodes of the minute and hour wheels are due after the minute and the hour their wheel has come to. */
  lemma {:induction false} DueAfterCursor(k: nat, node: TimerNode, c: Cursor)
    requires 60 <= k < SLOTS
    ensures k < 120 ==> DueAt(k, node, c) >= 60 * (c.a + 1)
    ensures k >= 120 ==> DueAt(k, node, c) >= 3600 * (c.h + 1)
  {
    hide NextAt;
    if k < 120 { NextAtHere(c.a, k - 60, 60); } else { NextAtHere(c.h, k - 120, 24); }
  }

  /** No node in these slots is due by then. */
  predicate NoneDueBy(slots: seq<seq<TimerNode>>, from: nat, to: nat, c: Cursor, clock: nat) {
    forall k, i :: from <= k < to <= SLOTS && k < |slots| && 0 <= i < |slots[k]| ==> DueAt(k, slots[k][i], c) > clock
  }

  /** A minute rollover runs what is due in the minute wheel at the coming minute, all of it, and loses nothing. */
  lemma {:induction false} MinuteWheelRefines(w: Wheel) returns (roll: seq<Entry>)
    requires AtMinuteRollover(w)
    ensures var r, c := MinuteWheel(w), CursorOf(w);
      && r.Sound() && SameClock(w, r) && r.registered == w.registered
      && r.log == LogAll(w.log, roll)
      && Entries(r.slots, c.(a := c.a + 1), 0) + multiset(roll) == Entries(w.slots, c, 0)
      && NoneDueBy(r.slots, 60, 120, c.(a := c.a + 1), w.Clock())
    ensures forall e :: e in roll ==> e.rollover && e.due == w.Clock()
  {
    hide Entries, EntryAt, CascadeMinutes, RolledMinute, NoneDueBy;
    var k, c := w.minutes + 60, CursorOf(w);
    var nodes := w.slots[k];
    roll := RolledMinute(nodes, k, c);
    RolledMinuteDue(w, nodes);
    CascadeMinutesLog(w, nodes);
    CascadeMinutesRefines(w, nodes);
    MinuteWheelSound(w);
    var x := CascadeMinutes(w, nodes);
    EntriesCleared(x.slots, c, k);
    Multiple60(w.hours, w.minutes);
    MinuteCursorMoves(x.slots[k := []], c);
    Swap(Entries(x.slots[k := []], c, 0), multiset(EntriesOf(nodes, k, c)), multiset(roll), Entries(w.slots, c, 0));
    MinuteNoneDue(w, MinuteWheel(w).slots);
  }

  lemma {:induction false} MinuteNoneDue(w: Wheel, slots: seq<seq<TimerNode>>)
    requires AtMinuteRollover(w)
    ensures NoneDueBy(slots, 60, 120, CursorOf(w).(a := CursorOf(w).a + 1), w.Clock())
  {
    hide DueAt;
    var c := CursorOf(w).(a := CursorOf(w).a + 1);
    forall k, i | 60 <= k < 120 && k < |slots| && 0 <= i < |slots[k]| ensures DueAt(k, slots[k][i], c) > w.Clock() {
      DueAfterCursor(k, slots[k][i], c);
    }
  }

  lemma {:induction false} HourNoneDue(w: Wheel, slots: seq<seq<TimerNode>>)
    requires AtHourRollover(w)
    ensures NoneDueBy(slots, 60, SLOTS, CursorOf(w).(h := CursorOf(w).h + 1), w.Clock())
  {
    hide DueAt;
    var c := CursorOf(w).(h := CursorOf(w).h + 1);
    forall k, i | 60 <= k < SLOTS && k < |slots| && 0 <= i < |slots[k]| ensures DueAt(k, slots[k][i], c) > w.Clock() {
      DueAfterCursor(k, slots[k][i], c);
    }
  }

  lemma {:induction false} Swap(x: multiset<Entry>, m: multiset<Entry>, roll: multiset<Entry>, y: multiset<Entry>)
    requires x + m + roll == y + m
    ensures x + roll == y
  {
    forall e ensures (x + roll)[e] == y[e] {
      assert (x + m + roll)[e] == (y + m)[e];
    }
  }

  // ---- the hour wheel ----

  /** The entries an hour rollover runs, in the order of the slot. */
  function RolledHour(nodes: seq<TimerNode>, k: nat, c: Cursor): seq<Entry>
    requires k < SLOTS
  {
    if nodes == [] then []
    else
      (if RunsAtHour(nodes[0]) then [EntryAt(k, nodes[0], c)] else []) + RolledHour(nodes[1..], k, c)
  }

  predicate RunsAtHour(node: TimerNode) { node.round == 0 && node.task.minutes == 0 && node.task.seconds == 0 }

  predicate AtHourRollover(w: Wheel) { w.Sound() && w.seconds == 0 && w.minutes == 60 }

  function HourSlot(hours: nat): (k: nat) ensures 120 <= k < SLOTS { hours % 24 + 120 }

  lemma {:induction false} HourNodeDue(w: Wheel, node: TimerNode)
    requires AtHourRollover(w) && node.task.Normal()
    ensures node.round == 0 ==>
      DueAt(HourSlot(w.hours), node, CursorOf(w)) == w.Clock() + 60 * node.task.minutes + node.task.seconds
    ensures node.round != 0 ==>
      DueAt(HourSlot(w.hours), node.(round := node.round - 1), CursorOf(w).(h := w.hours + 1))
      == DueAt(HourSlot(w.hours), node, CursorOf(w))
  {
    hide NextAt;
    NextAtHere(w.hours, w.hours % 24, 24);
    NextAtAgain(w.hours, 24);
  }

  lemma {:induction false} MovedMinuteDue(w: Wheel, node: TimerNode)
    requires AtHourRollover(w) && node.task.Normal() && node.task.minutes != 0
    ensures DueAt(node.task.minutes + 59, NodeOf(node.task), CursorOf(w))
         == w.Clock() + 60 * node.task.minutes + node.task.seconds
  {
    hide NextAt;
    var a := CursorOf(w).a;
    Multiple60(w.hours + 1, node.task.minutes - 1);
    NextAtShift(a, node.task.minutes - 1, 60);
  }

  lemma {:induction false} MovedSecondDue(w: Wheel, node: TimerNode)
    requires AtHourRollover(w) && node.task.Normal()
    ensures DueAt(node.task.seconds, NodeOf(node.task), CursorOf(w)) == w.Clock() + node.task.seconds
  {
    hide NextAt;
    Multiple60(CursorOf(w).a, node.task.seconds);
    NextAtShift(w.Clock(), node.task.seconds, 60);
  }

  lemma {:induction false} HourMoveKeepsEntry(w: Wheel, node: TimerNode)
    requires AtHourRollover(w) && node.task.Normal()
    ensures node.round == 0 ==>
      DueAt(HourSlot(w.hours), node, CursorOf(w)) == w.Clock() + 60 * node.task.minutes + node.task.seconds
    ensures node.round == 0 && node.task.minutes != 0 ==>
      EntryAt(node.task.minutes + 59, NodeOf(node.task), CursorOf(w)) == EntryAt(HourSlot(w.hours), node, CursorOf(w))
    ensures node.round == 0 && node.task.minutes == 0 && node.task.seconds != 0 ==>
      EntryAt(node.task.seconds, NodeOf(node.task), CursorOf(w)) == EntryAt(HourSlot(w.hours), node, CursorOf(w))
    ensures node.round != 0 ==>
      EntryAt(HourSlot(w.hours), node.(round := node.round - 1), CursorOf(w).(h := w.hours + 1))
      == EntryAt(HourSlot(w.hours), node, CursorOf(w))
  {
    hide DueAt, HourSlot, CursorOf;
    HourNodeDue(w, node);
    if node.task.minutes != 0 { MovedMinuteDue(w, node); }
    MovedSecondDue(w, node);
  }

  lemma {:induction false} CascadeHourRefines(w: Wheel, node: TimerNode)
    requires AtHourRollover(w) && node.task.Normal()
    ensures var r, e := CascadeHour(w, node), EntryAt(HourSlot(w.hours), node, CursorOf(w));
      && AtHourRollover(r) && SameClock(w, r) && r.registered == w.registered && r.slots[HourSlot(w.hours)] == w.slots[HourSlot(w.hours)]
      && (if node.round != 0 then r == w
          else if node.task.minutes == 0 && node.task.seconds == 0 then
            e.due == w.Clock() && r.log == Logged(w.log, e) && r.slots == w.slots
          else
            r.log == w.log && Entries(r.slots, CursorOf(w), 0) == Entries(w.slots, CursorOf(w), 0) + multiset{e})
  {
    hide NextAt, Entries;
    HourMoveKeepsEntry(w, node);
    if node.round == 0 && node.task.minutes != 0 {
      EntriesPushed(w.slots, CursorOf(w), node.task.minutes + 59, NodeOf(node.task));
    } else if node.round == 0 && node.task.seconds != 0 {
      EntriesPushed(w.slots, CursorOf(w), node.task.seconds, NodeOf(node.task));
    }
  }

  lemma {:induction false} CascadeHoursLog(w: Wheel, nodes: seq<TimerNode>)
    requires AtHourRollover(w) && AllNormal(nodes)
    ensures var r, k, c := CascadeHours(w, nodes), HourSlot(w.hours), CursorOf(w);
      && AtHourRollover(r) && SameClock(w, r) && r.registered == w.registered && r.slots[k] == w.slots[k]
      && r.log == LogAll(w.log, RolledHour(nodes, k, c))
    decreases nodes
  {
    hide Entries, EntryAt, CascadeHour, LogAll, Logged;
    var k, c := HourSlot(w.hours), CursorOf(w);
    if nodes == [] {
      EmptyLog(w.log);
    } else {
      var node, rest := nodes[0], nodes[1..];
      CascadeHourRefines(w, node);
      CascadeHoursLog(CascadeHour(w, node), rest);
      if RunsAtHour(node) {
        LogFirst(w.log, EntryAt(k, node, c), RolledHour(rest, k, c));
      } else {
        assert [] + RolledHour(rest, k, c) == RolledHour(rest, k, c);
      }
    }
  }

  lemma {:induction false} FirstRolledHour(nodes: seq<TimerNode>, k: nat, c: Cursor)
    requires k < SLOTS && nodes != []
    ensures multiset(RolledHour(nodes, k, c))
         == (if RunsAtHour(nodes[0]) then multiset{EntryAt(k, nodes[0], c)} else multiset{})
            + multiset(RolledHour(nodes[1..], k, c))
  {
    hide EntryAt;
  }

  function OneDayLess(node: TimerNode): TimerNode
    requires node.round != 0
  {
    node.(round := node.round - 1)
  }

  lemma {:induction false} FirstWaiting(nodes: seq<TimerNode>, k: nat, c: Cursor)
    requires k < SLOTS && nodes != []
    ensures multiset(EntriesOf(Waiting(nodes), k, c))
         == (if nodes[0].round != 0 then multiset{EntryAt(k, OneDayLess(nodes[0]), c)} else multiset{})
            + multiset(EntriesOf(Waiting(nodes[1..]), k, c))
  {
    hide EntryAt, EntriesOf;
    if nodes[0].round != 0 {
      assert Waiting(nodes)[1..] == Waiting(nodes[1..]);
      FirstEntry(Waiting(nodes), k, c);
    } else {
      Regroup(multiset{}, multiset{}, multiset(EntriesOf(Waiting(nodes[1..]), k, c)));
    }
  }

  /** Where one node of the hour slot goes: it stays a day nearer, runs, or moves as the same entry. */
  lemma {:induction false} HourStep(w: Wheel, node: TimerNode)
    requires AtHourRollover(w) && node.task.Normal()
    ensures var w1, k, c := CascadeHour(w, node), HourSlot(w.hours), CursorOf(w);
      && AtHourRollover(w1) && CursorOf(w1) == c && HourSlot(w1.hours) == k
      && (node.round != 0 ==>
            Entries(w1.slots, c, 0) == Entries(w.slots, c, 0)
            && EntryAt(k, OneDayLess(node), c.(h := c.h + 1)) == EntryAt(k, node, c))
      && (RunsAtHour(node) ==> Entries(w1.slots, c, 0) == Entries(w.slots, c, 0))
      && (node.round == 0 && !RunsAtHour(node) ==>
            Entries(w1.slots, c, 0) == Entries(w.slots, c, 0) + multiset{EntryAt(k, node, c)})
  {
    hide Entries, EntryAt, CascadeHour, HourSlot, LogAll, NodeOf, Logged;
    CascadeHourRefines(w, node);
    HourMoveKeepsEntry(w, node);
  }

  /** No node is lost or duplicated: what runs, what moves and what stays is what the slot held. */
  lemma {:induction false} CascadeHoursRefines(w: Wheel, nodes: seq<TimerNode>)
    requires AtHourRollover(w) && AllNormal(nodes)
    ensures var r, k, c := CascadeHours(w, nodes), HourSlot(w.hours), CursorOf(w);
      Entries(r.slots, c, 0)
        + (multiset(RolledHour(nodes, k, c)) + multiset(EntriesOf(Waiting(nodes), k, c.(h := c.h + 1))))
      == Entries(w.slots, c, 0) + multiset(EntriesOf(nodes, k, c))
    decreases nodes
  {
    hide Entries, EntryAt, DueAt, CascadeHour, RolledHour, EntriesOf, Waiting, HourSlot, LogAll, NodeOf, Logged,
         CursorOf, OneDayLess;
    var k, c := HourSlot(w.hours), CursorOf(w);
    var c' := c.(h := c.h + 1);
    if nodes == [] {
      assert EntriesOf(nodes, k, c) == [];
      EmptyRollover(k, c, c');
    } else {
      var w1, rest := CascadeHour(w, nodes[0]), nodes[1..];
      HourStep(w, nodes[0]);
      CascadeHoursRefines(w1, rest);
      FirstEntry(nodes, k, c);
      FirstRolledHour(nodes, k, c);
      FirstWaiting(nodes, k, c');
      JoinHour(Entries(CascadeHours(w, nodes).slots, c, 0),
               multiset(RolledHour(rest, k, c)), multiset(EntriesOf(Waiting(rest), k, c')),
               Entries(w.slots, c, 0), Entries(w1.slots, c, 0), multiset(EntriesOf(rest, k, c)),
               multiset{EntryAt(k, nodes[0], c)},
               multiset(RolledHour(nodes, k, c)), multiset(EntriesOf(Waiting(nodes), k, c')));
    }
  }

  lemma {:induction false} JoinHour(
    x: multiset<Entry>, rolled: multiset<Entry>, kept: multiset<Entry>, y: multiset<Entry>, y1: multiset<Entry>,
    rest: multiset<Entry>, first: multiset<Entry>, rolled': multiset<Entry>, kept': multiset<Entry>)
    requires x + (rolled + kept) == y1 + rest
    requires || (y1 == y && rolled' == multiset{} + rolled && kept' == first + kept)
             || (y1 == y && rolled' == first + rolled && kept' == multiset{} + kept)
             || (y1 == y + first && rolled' == multiset{} + rolled && kept' == multiset{} + kept)
    ensures x + (rolled' + kept') == y + (first + rest)
  {
    Regroup(first, rolled, kept);
    JoinFirst(x, rolled + kept, y, y1, rest, first);
  }

  lemma {:induction false} EmptyRollover(k: nat, c: Cursor, c': Cursor)
    requires k < SLOTS
    ensures RolledHour([], k, c) == [] && RolledMinute([], k, c) == [] && EntriesOf(Waiting([]), k, c') == []
  {
  }

  lemma {:induction false} Regroup(first: multiset<Entry>, a: multiset<Entry>, b: multiset<Entry>)
    ensures first + a + b == first + (a + b) && a + (first + b) == first + (a + b) && multiset{} + a == a
    ensures multiset{} + b == b
  {
  }

  lemma {:induction false} RolledHourDue(w: Wheel, nodes: seq<TimerNode>)
    requires AtHourRollover(w) && AllNormal(nodes)
    ensures forall e :: e in RolledHour(nodes, HourSlot(w.hours), CursorOf(w)) ==> e.rollover && e.due == w.Clock()
    decreases nodes
  {
    if nodes != [] {
      HourMoveKeepsEntry(w, nodes[0]);
      RolledHourDue(w, nodes[1..]);
    }
  }

  /** After an hour rollover nothing that waits in the minute and hour wheels is due any more; nothing is lost. */
  lemma {:induction false} HourWheelRefines(w: Wheel) returns (roll: seq<Entry>)
    requires AtHourRollover(w)
    ensures var r, c := HourWheel(w), CursorOf(w);
      && r.Sound() && SameClock(w, r) && r.registered == w.registered
      && r.log == LogAll(w.log, roll)
      && Entries(r.slots, c.(h := c.h + 1), 0) + multiset(roll) == Entries(w.slots, c, 0)
      && NoneDueBy(r.slots, 60, SLOTS, c.(h := c.h + 1), w.Clock())
    ensures forall e :: e in roll ==> e.rollover && e.due == w.Clock()
  {
    hide Entries, EntryAt, CascadeHours, RolledHour, Waiting, NoneDueBy;
    var k, c := HourSlot(w.hours), CursorOf(w);
    var c' := c.(h := c.h + 1);
    var nodes := w.slots[k];
    roll := RolledHour(nodes, k, c);
    RolledHourDue(w, nodes);
    CascadeHoursLog(w, nodes);
    CascadeHoursRefines(w, nodes);
    HourWheelSound(w);
    var x := CascadeHours(w, nodes);
    var rest := x.slots[k := []];
    EntriesCleared(x.slots, c, k);
    HourCursorMoves(rest, c);
    var r := HourWheel(w);
    EntriesCleared(r.slots, c', k);
    assert r.slots[k := []] == rest;
    SwapKept(Entries(rest, c, 0), multiset(EntriesOf(nodes, k, c)), multiset(roll),
             multiset(EntriesOf(Waiting(nodes), k, c')), Entries(w.slots, c, 0));
    HourNoneDue(w, HourWheel(w).slots);
  }

  lemma {:induction false} SwapKept(x: multiset<Entry>, m: multiset<Entry>, roll: multiset<Entry>, kept: multiset<Entry>, y: multiset<Entry>)
    requires x + m + (roll + kept) == y + m
    ensures x + kept + roll == y
  {
    forall e ensures (x + kept + roll)[e] == y[e] {
      assert (x + m + (roll + kept))[e] == (y + m)[e];
    }
  }

  // ---- a whole tick ----

  /** Between ticks nothing is overdue: every entry's tick is still to come. */
  lemma {:induction false} NoneOverdue(w: Wheel, e: Entry)
    requires w.Valid() && e in Abs(w).entries
    ensures e.RunTick() >= w.Clock()
    ensures e.rollover ==> e.due > w.Clock()
  {
    var c := CursorOf(w);
    if forall k :: 0 <= k < SLOTS ==> e !in EntriesOf(w.slots[k], k, c) {
      EntriesNone(w.slots, c, 0, e);
    } else {
      var k :| 0 <= k < SLOTS && e in EntriesOf(w.slots[k], k, c);
      var i :| 0 <= i < |w.slots[k]| && e == EntryAt(k, w.slots[k][i], c);
      NodeNotOverdue(w, k, w.slots[k][i]);
    }
  }

  lemma {:induction false} NodeNotOverdue(w: Wheel, k: nat, node: TimerNode)
    requires w.Valid() && k < SLOTS && node.task.Normal()
    ensures DueAt(k, node, CursorOf(w)) >= w.Clock() && (k >= 60 ==> DueAt(k, node, CursorOf(w)) > w.Clock())
  {
    hide NextAt;
    var c := CursorOf(w);
    if k < 60 {
      NextAtHere(c.n, k, 60);
    } else if k < 120 {
      NextAtHere(c.a, k - 60, 60);
    } else {
      NextAtHere(c.h, k - 120, 24);
    }
  }

  /** What a tick does after the second wheel, down to the coming clock value. */
  ghost predicate Rolled(w: Wheel, w1: Wheel, r: Wheel, roll: seq<Entry>)
    requires |w1.slots| == SLOTS && |r.slots| == SLOTS
  {
    && r.Clock() == w.Clock() + 1 && r.registered == w1.registered && r.log == LogAll(w1.log, roll)
    && Abs(r).entries + multiset(roll) == Abs(w1).entries
    && forall e :: e in roll ==> DueAtRollover(e, w.Clock())
  }

  lemma {:induction false} SecondPasses(w: Wheel, w1: Wheel)
    requires w.Valid() && w1.Valid() && SameClock(w, w1) && w1.slots[w.seconds] == [] && w.seconds < 59
    ensures Rolled(w, w1, w1.(seconds := w.seconds + 1), [])
  {
    hide Entries, LogAll;
    ClockParts(w);
    SecondCursorMoves(w1.slots, CursorOf(w1));
    EmptyLog(w1.log);
  }

  lemma {:induction false} MinutePasses(w: Wheel, w1: Wheel) returns (roll: seq<Entry>)
    requires w.Valid() && w1.Valid() && SameClock(w, w1) && w1.slots[w.seconds] == [] && w.seconds == 59
    ensures AtMinuteRollover(w1.(seconds := 60)) && MinuteWheel(w1.(seconds := 60)).minutes == w.minutes
    ensures var r := MinuteWheel(w1.(seconds := 60)).(seconds := 0, minutes := w.minutes + 1);
      r.Sound() && r.hours == w.hours && Rolled(w, w1, r, roll)
  {
    hide Entries, MinuteWheel, LogAll;
    ClockParts(w);
    SecondCursorMoves(w1.slots, CursorOf(w1));
    roll := MinuteWheelRefines(w1.(seconds := 60));
  }

  lemma {:induction false} HourPasses(w: Wheel, w1: Wheel, w4: Wheel, roll: seq<Entry>) returns (more: seq<Entry>)
    requires AtHourRollover(w4) && |w1.slots| == SLOTS && Rolled(w, w1, w4, roll)
    ensures var r := HourWheel(w4).(minutes := 0, hours := w4.hours + 1);
      |r.slots| == SLOTS && Rolled(w, w1, r, roll + more)
  {
    hide Entries, HourWheel, LogAll;
    more := HourWheelRefines(w4);
    LogAllAppend(w1.log, roll, more);
  }

  /** The wheel's tick as a tick of the table: everything but the bookkeeping of what rolled over. */
  lemma {:induction false} TickPhases(w: Wheel, w1: Wheel) returns (roll: seq<Entry>)
    requires w.Valid() && w1 == SecondWheel(w)
    requires w1.Valid() && SameClock(w, w1) && w1.slots[w.seconds] == []
    ensures var r := Tick(w);
      && r.Valid() && r.Clock() == w.Clock() + 1 && r.registered == w1.registered && r.log == LogAll(w1.log, roll)
      && Abs(r).entries + multiset(roll) == Abs(w1).entries
    ensures forall e :: e in roll ==> DueAtRollover(e, w.Clock())
  {
    hide Entries, SecondWheel, MinuteWheel, HourWheel, LogAll, Abs, Wheel.Clock;
    assert Tick(w).Valid();
    if w.seconds < 59 {
      SecondPasses(w, w1);
      roll := [];
      assert Tick(w) == w1.(seconds := w.seconds + 1);
    } else {
      roll := MinutePasses(w, w1);
      var w4 := MinuteWheel(w1.(seconds := 60)).(seconds := 0, minutes := w.minutes + 1);
      if w4.minutes == 60 {
        var more := HourPasses(w, w1, w4, roll);
        roll := roll + more;
        assert Tick(w) == HourWheel(w4).(minutes := 0, hours := w4.hours + 1) by { HourWheelSound(w4); }
      } else {
        assert Tick(w) == w4;
      }
    }
  }

  lemma {:induction false} EmptyLog(log: seq<Run>)
    ensures LogAll(log, []) == log
  {
  }

  /** One tick of the wheel is one tick of the deadline table. */
  lemma {:induction false} TickRefines(w: Wheel) returns (due: seq<Entry>, roll: seq<Entry>)
    requires w.Valid()
    ensures Abs(w).Keyed() && TableTick(Abs(w), due, roll, Abs(Tick(w)))
  {
    hide Entries, SecondWheel, Tick, FirePhase;
    due := EntriesOf(w.slots[w.seconds], w.seconds, CursorOf(w));
    SecondWheelRefines(w);
    var w1 := SecondWheel(w);
    roll := TickPhases(w, w1);
    var r := Tick(w);
    forall e: Entry ensures multiset(roll)[e] == if DueAtRollover(e, w.Clock()) then Abs(w1).entries[e] else 0 {
      assert (Abs(r).entries + multiset(roll))[e] == Abs(w1).entries[e];
      if DueAtRollover(e, w.Clock()) {
        if e in Abs(r).entries { NoneOverdue(r, e); }
      } else {
        assert e !in roll;
      }
    }
    assert Abs(r).entries == Abs(w1).entries - multiset(roll);
  }
}
