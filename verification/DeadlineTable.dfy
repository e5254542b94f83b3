/**
 The specification of the timer: a table of (id, clock value at which it is due), with no
 slots, rounds or cascades.

 A tick at clock `now` first runs every entry due now in the second lane, forgetting or
 re-arming its task, and then runs every entry of the rollover lane that is due at `now + 1`:
 those run inside the rollover that makes the clock read their due value and are not re-armed.
 The order inside a tick is left open.
 */
module DeadlineTable {
  import opened TimingWheel

  datatype Entry = Entry(id: string, cycle: int, callable: bool, due: nat, rollover: bool) {
    /** The clock value whose tick runs this entry. */
    function RunTick(): int { if rollover then due - 1 else due }
  }

  datatype Table = Table(now: nat, entries: multiset<Entry>, registered: map<string, TimerTask>, log: seq<Run>) {
    predicate Keyed() {
      forall id :: id in registered ==> registered[id].Normal() && registered[id].id == id
    }
  }

  /** Adding two values below 60: the sum below 60, and the carry. */
  function Wrap(x: nat, y: nat): nat { if x + y < 60 then x + y else x + y - 60 }

  function Carry(x: nat, y: nat): nat { if x + y < 60 then 0 else 1 }

  /** The hour that an hour task is due in: days are counted from the start of the clock. */
  function DueHour(h: nat, hours: nat, carry: nat): nat
    requires hours > 0
  {
    h + (hours - 1) % 24 + 1 + 24 * ((h + hours + carry) / 24)
  }

  /** The clock value at which a task added at `now` is due. */
  function Due(now: nat, task: TimerTask): nat
    requires task.Normal()
  {
    var h, m, s := now / 3600, now / 60 % 60, now % 60;
    if task.hours != 0 then
      var hour := DueHour(h, task.hours, Carry(task.minutes + Carry(task.seconds, s), m));
      3600 * hour + 60 * Wrap(task.minutes, m) + Wrap(task.seconds, s)
    else if task.minutes != 0 then 60 * (now / 60 + task.minutes) + Wrap(task.seconds, s)
    else now + task.seconds
  }

  /** Whether it then runs inside a minute or hour rollover. */
  predicate Rollover(now: nat, task: TimerTask)
    requires task.Normal()
  {
    (task.hours != 0 || task.minutes != 0) && Wrap(task.seconds, now % 60) == 0
  }

  function EntryFor(now: nat, task: TimerTask): Entry
    requires task.Normal()
  {
    Entry(task.id, task.cycle, task.callable, Due(now, task), Rollover(now, task))
  }

  function Add(t: Table, task: TimerTask): Table
    requires task.Normal()
  {
    if task.Delay() == 0 then t else t.(entries := t.entries + multiset{EntryFor(t.now, task)})
  }

  function Logged(log: seq<Run>, e: Entry): seq<Run> {
    if e.callable then log + [Run(e.id, e.due)] else log
  }

  /** An entry of the second lane runs; a counted task on its last run is forgotten, others re-arm. */
  function Fire(t: Table, e: Entry): (r: Table)
    requires t.Keyed()
    ensures r.Keyed() && r.now == t.now
  {
    var t1 := t.(log := Logged(t.log, e));
    if e.cycle == 1 then t1.(registered := t1.registered - {e.id})
    else if e.cycle == 0 || e.id !in t1.registered then t1
    else
      var next := Countdown(t1.registered[e.id]);
      Add(t1.(registered := t1.registered[e.id := next]), next)
  }

  function FireAll(t: Table, es: seq<Entry>): (r: Table)
    requires t.Keyed()
    ensures r.Keyed() && r.now == t.now
    decreases es
  {
    if es == [] then t else FireAll(Fire(t, es[0]), es[1..])
  }

  function LogAll(log: seq<Run>, es: seq<Entry>): seq<Run>
    decreases es
  {
    if es == [] then log else LogAll(Logged(log, es[0]), es[1..])
  }

  lemma {:induction false} LogAllAppend(log: seq<Run>, a: seq<Entry>, b: seq<Entry>)
    ensures LogAll(log, a + b) == LogAll(LogAll(log, a), b)
    decreases a
  {
    if a == [] {
      assert a + b == b;
    } else {
      assert (a + b)[1..] == a[1..] + b;
      LogAllAppend(Logged(log, a[0]), a[1..], b);
    }
  }

  predicate DueNow(e: Entry, now: nat) { !e.rollover && e.due == now }

  predicate DueAtRollover(e: Entry, now: nat) { e.rollover && e.due == now + 1 }

  /** `es` lists, in some order, exactly the entries due now, with their multiplicities. */
  ghost predicate ListsDueNow(es: seq<Entry>, entries: multiset<Entry>, now: nat) {
    forall e: Entry :: multiset(es)[e] == if DueNow(e, now) then entries[e] else 0
  }

  ghost predicate ListsDueAtRollover(es: seq<Entry>, entries: multiset<Entry>, now: nat) {
    forall e: Entry :: multiset(es)[e] == if DueAtRollover(e, now) then entries[e] else 0
  }

  function FirePhase(t: Table, due: seq<Entry>): (r: Table)
    requires t.Keyed()
    ensures r.Keyed() && r.now == t.now
  {
    FireAll(t.(entries := t.entries - multiset(due)), due)
  }

  function RolloverPhase(t: Table, roll: seq<Entry>): Table {
    t.(now := t.now + 1, entries := t.entries - multiset(roll), log := LogAll(t.log, roll))
  }

  /** What a tick may do: some order of the due entries, then some order of the rollover entries. */
  ghost predicate TableTick(t: Table, due: seq<Entry>, roll: seq<Entry>, t': Table)
    requires t.Keyed()
  {
    && ListsDueNow(due, t.entries, t.now)
    && ListsDueAtRollover(roll, FirePhase(t, due).entries, t.now)
    && t' == RolloverPhase(FirePhase(t, due), roll)
  }

  function TableSubmit(t: Table, task: TimerTask): (r: Table)
    requires t.Keyed() && task.Normal()
    ensures r.Keyed()
  {
    if task.cycle == 0 then t.(registered := t.registered - {task.id})
    else if task.cycle != 1 && task.id !in t.registered then
      Add(t.(registered := t.registered[task.id := task]), task)
    else Add(t, task)
  }

  /** The clock values at which an id ran, in order. */
  function RunsOf(log: seq<Run>, id: string): seq<nat> {
    if log == [] then []
    else RunsOf(log[..|log| - 1], id) + if log[|log| - 1].id == id then [log[|log| - 1].clock] else []
  }

  /** A task under an id that is recorded adds its entry and leaves the record as it is; a count of 0 only forgets it. */
  lemma ResubmitKeepsRecord(t: Table, task: TimerTask)
    requires t.Keyed() && task.Normal() && task.id in t.registered
    ensures var t' := TableSubmit(t, task);
      if task.cycle == 0 then t'.entries == t.entries && t'.registered == t.registered - {task.id}
      else t'.registered == t.registered
           && t'.entries == t.entries + if task.Delay() == 0 then multiset{} else multiset{EntryFor(t.now, task)}
  {
  }

  // ---- when a task added now is due ----

  lemma ClockFields(now: nat)
    ensures now / 60 == 60 * (now / 3600) + now / 60 % 60
    ensures now == 3600 * (now / 3600) + 60 * (now / 60 % 60) + now % 60
  {
    assert now / 60 / 60 == now / 3600;
  }

  lemma Multiple60(x: nat, r: nat)
    requires r < 60
    ensures (60 * x + r) % 60 == r && (60 * x + r) / 60 == x
  {
  }

  lemma DueFromHours(now: nat, task: TimerTask)
    requires task.Normal() && task.hours != 0
    ensures Due(now, task) > now && Due(now, task) % 60 == Wrap(task.seconds, now % 60)
  {
    var h, m, s := now / 3600, now / 60 % 60, now % 60;
    var hour := DueHour(h, task.hours, Carry(task.minutes + Carry(task.seconds, s), m));
    assert hour >= h + 1 by { hide Wrap; }
    assert now < 3600 * h + 3600 by { hide Due, DueHour; }
    assert Due(now, task) == 60 * (60 * hour + Wrap(task.minutes, m)) + Wrap(task.seconds, s) by { hide DueHour; }
    hide Due, DueHour, Carry;
    Multiple60(60 * hour + Wrap(task.minutes, m), Wrap(task.seconds, s));
  }

  lemma DueIsLater(now: nat, task: TimerTask)
    requires task.Normal() && task.Delay() > 0
    ensures Due(now, task) > now
    ensures Rollover(now, task) ==> Due(now, task) % 60 == 0
  {
    hide DueHour;
    if task.hours != 0 {
      DueFromHours(now, task);
    } else if task.minutes != 0 {
      Multiple60(now / 60 + task.minutes, Wrap(task.seconds, now % 60));
    }
  }

  /**
   A task runs its delay after it was added exactly when no carry is lost: always below a
   minute; without a carry out of the seconds below an hour; and, from an hour up, without a
   carry out of the seconds or the minutes and with as many days counted from the start of the
   clock as there are whole days in the delay.
   */
  predicate KeepsCarries(now: nat, task: TimerTask) {
    var h, m, s := now / 3600, now / 60 % 60, now % 60;
    && ((task.hours != 0 || task.minutes != 0) ==> task.seconds + s < 60)
    && (task.hours != 0 ==> task.minutes + m < 60 && (task.hours + h) / 24 == (task.hours - 1) / 24)
  }

  lemma DueIsExact(now: nat, task: TimerTask)
    requires task.Normal() && task.Delay() > 0
    ensures Due(now, task) == now + task.Delay() <==> KeepsCarries(now, task)
  {
    ClockFields(now);
    var h, m, s := now / 3600, now / 60 % 60, now % 60;
    if task.hours != 0 {
      var day := (task.hours - 1) / 24;
      var days := (h + task.hours + Carry(task.minutes + Carry(task.seconds, s), m)) / 24;
      assert (task.hours - 1) % 24 == task.hours - 1 - 24 * day;
      assert Due(now, task) - now - task.Delay()
          == 86400 * (days - day) - 3600 * Carry(task.minutes, m) - 60 * Carry(task.seconds, s);
    }
  }

  /** The delay a task below an hour really gets: the lost carry makes it one minute early. */
  lemma MinuteDelay(now: nat, task: TimerTask)
    requires task.Normal() && task.hours == 0 && task.minutes != 0
    ensures Due(now, task) == now + task.Delay() - if task.seconds + now % 60 >= 60 then 60 else 0
  {
  }

  /**
   The delay a task of an hour or more really gets: a minute less when the seconds carry, an hour less
   when the minutes do, and a day more or less for each day by which the days since the start of the
   clock and the whole days of its delay disagree.
   */
  lemma HourDelay(now: nat, task: TimerTask)
    requires task.Normal() && task.hours != 0
    ensures var h, m, s := now / 3600, now / 60 % 60, now % 60;
      var carry := if task.minutes + (if task.seconds + s >= 60 then 1 else 0) + m >= 60 then 1 else 0;
      Due(now, task) == now + task.Delay()
        - (if task.seconds + s >= 60 then 60 else 0) - (if task.minutes + m >= 60 then 3600 else 0)
        + 86400 * ((h + task.hours + carry) / 24 - (task.hours - 1) / 24)
  {
    ClockFields(now);
    var day := (task.hours - 1) / 24;
    assert (task.hours - 1) % 24 == task.hours - 1 - 24 * day;
  }

  /** A concrete early run: 1 minute 1 second, added at second 59, runs after 1 second. */
  lemma MinuteDelayCounterexample()
    ensures Due(59, TimerTask(0, 1, 1, 1, "t", true)) == 60
  {
  }

  /** A concrete late run: 2 hours, added at hour 22, runs after 26 hours. */
  lemma HourDelayCounterexample()
    ensures Due(22 * 3600, TimerTask(2, 0, 0, 1, "t", true)) == (22 + 26) * 3600
  {
  }
}
