/**
 What the wheel does over whole runs: when every task runs, that no id is ever held twice,
 what a cancellation leaves, and which repeating tasks keep their period.
 */
module TimerRuns {
  import opened TimingWheel
  import opened DeadlineTable
  import opened Schedule
  import opened WheelRefinement

  /** No event submits this id, not even to forget it. */
  predicate Without(events: seq<Event>, id: string) {
    forall i :: 0 <= i < |events| && events[i].Submitted? ==> events[i].task.id != id
  }

  /** The id has no node in any slot and no record. */
  predicate Fresh(w: Wheel, id: string) {
    && (forall k, i :: 0 <= k < |w.slots| && 0 <= i < |w.slots[k]| ==> w.slots[k][i].task.id != id)
    && id !in w.registered
  }

  lemma {:induction false} ValidSlots(w: Wheel)
    requires w.Valid()
    ensures |w.slots| == SLOTS
  {
  }

  lemma {:induction false} EntriesOfOthers(nodes: seq<TimerNode>, k: nat, c: Cursor, e: Entry)
    requires k < SLOTS && forall i :: 0 <= i < |nodes| ==> nodes[i].task.id != e.id
    ensures e !in EntriesOf(nodes, k, c)
  {
  }

  lemma {:induction false} FreshIsAbsent(w: Wheel, id: string)
    requires w.Valid() && Fresh(w, id)
    ensures Absent(Abs(w), id)
  {
    hide Entries, EntryAt, Wheel.Valid, Wheel.Sound;
    assert |w.slots| == SLOTS by { ValidSlots(w); }
    forall e: Entry | e in Abs(w).entries ensures e.id != id {
      if e.id == id {
        forall k | 0 <= k < SLOTS ensures e !in EntriesOf(w.slots[k], k, CursorOf(w)) {
          EntriesOfOthers(w.slots[k], k, CursorOf(w), e);
        }
        EntriesNone(w.slots, CursorOf(w), 0, e);
      }
    }
  }

  lemma {:induction false} ClockMoves(w: Wheel, event: Event)
    requires w.Valid() && (event.Submitted? ==> event.task.Normal())
    ensures Apply(w, event).Clock() == w.Clock() + if event.Ticked? then 1 else 0
  {
    hide Tick, SecondWheel, Entries, Abs, FirePhase, ListsDueNow;
    if event.Ticked? {
      SecondWheelRefines(w);
      var roll := TickPhases(w, SecondWheel(w));
    }
  }

  lemma {:induction false} ClockGrows(w: Wheel, events: seq<Event>)
    requires w.Valid() && NormalEvents(events)
    ensures RunWheel(w, events).Clock() >= w.Clock()
    decreases events
  {
    if events != [] {
      ClockMoves(w, events[0]);
      ClockGrows(Apply(w, events[0]), events[1..]);
    }
  }

  lemma {:induction false} RunFollows(w: Wheel, events: seq<Event>, task: TimerTask, total: seq<nat>)
    requires w.Valid() && NormalEvents(events) && Without(events, task.id)
    requires Follows(Abs(w), task, RunWheel(w, events).Clock(), total)
    ensures Follows(Abs(RunWheel(w, events)), task, RunWheel(w, events).Clock(), total)
    decreases events
  {
    hide Abs, Tick, Submit, Follows, TableTick, TableSubmit;
    if events != [] {
      var horizon := RunWheel(w, events).Clock();
      var w1 := Apply(w, events[0]);
      assert Abs(w).now == w.Clock() by { AbsNow(w); }
      ClockMoves(w, events[0]);
      ClockGrows(w1, events[1..]);
      match events[0] {
        case Ticked =>
          var due, roll := TickRefines(w);
          TickFollows(Abs(w), due, roll, Abs(w1), task, horizon, total);
        case Submitted(other) =>
          SubmitRefines(w, other);
          SubmitFollows(Abs(w), other, task, horizon, total);
      }
      RunFollows(w1, events[1..], task, total);
    }
  }

  lemma {:induction false} AbsNow(w: Wheel)
    requires |w.slots| == SLOTS
    ensures Abs(w).now == w.Clock() && Abs(w).log == w.log && Abs(w).registered == w.registered
  {
  }

  /**
   Every task runs exactly on its plan: a task submitted under a fresh id has, at any later
   moment and whatever other tasks come, go, cascade or repeat, run at exactly the clock values
   its plan gives below that moment, once each and in order.
   */
  lemma {:induction false} RunsOnPlan(w: Wheel, task: TimerTask, events: seq<Event>)
    requires w.Valid() && Fresh(w, task.id) && task.Normal() && task.cycle != 0
    requires NormalEvents(events) && Without(events, task.id)
    ensures var end := RunWheel(Submit(w, task), events);
      RunsOf(end.log, task.id)
      == RunsOf(w.log, task.id) + Shown(task, Plan(w.Clock(), task, task.cycle, end.Clock()))
  {
    hide Abs, Tick, Submit, Follows, TableSubmit;
    var w1 := Submit(w, task);
    var end := RunWheel(w1, events);
    var total := RunsOf(w.log, task.id) + Shown(task, Plan(w.Clock(), task, task.cycle, end.Clock()));
    AbsNow(w);
    FreshIsAbsent(w, task.id);
    SubmitRefines(w, task);
    SubmitStarts(Abs(w), task, end.Clock());
    RunFollows(w1, events, task, total);
    AbsNow(end);
    FollowsToHorizon(Abs(end), task, total);
  }

  /** A one-shot task has run once as soon as its tick is over, at its due value, and not before. */
  lemma {:induction false} OneShotRunsOnce(w: Wheel, task: TimerTask, events: seq<Event>)
    requires w.Valid() && Fresh(w, task.id) && task.Normal() && task.cycle == 1 && task.callable && task.Delay() > 0
    requires NormalEvents(events) && Without(events, task.id)
    ensures var end, e := RunWheel(Submit(w, task), events), EntryFor(w.Clock(), task);
      RunsOf(end.log, task.id) == RunsOf(w.log, task.id) + if e.RunTick() < end.Clock() then [e.due] else []
  {
    RunsOnPlan(w, task, events);
    DueIsLater(w.Clock(), task);
    var end := RunWheel(Submit(w, task), events);
    assert Plan(Due(w.Clock(), task), task, 0, end.Clock()) == [];
  }

  /** The clock values now + d, now + 2d, ... below the horizon. */
  function Every(now: nat, d: nat, horizon: nat): seq<nat>
    requires d > 0
    decreases horizon - now
  {
    if now + d < horizon then [now + d] + Every(now + d, d, horizon) else []
  }

  lemma {:induction false} EveryAt(now: nat, d: nat, horizon: nat, k: nat)
    requires d > 0
    ensures k < |Every(now, d, horizon)| <==> now + (k + 1) * d < horizon
    ensures k < |Every(now, d, horizon)| ==> Every(now, d, horizon)[k] == now + (k + 1) * d
    decreases k
  {
    if k > 0 {
      assert now + (k + 1) * d == now + d + k * d;
      EveryAt(now + d, d, horizon, k - 1);
      assert now + (k + 1) * d >= now + d by { assert k * d >= 0; }
    }
  }

  /** The first n elements of a list, or all of them when n is negative. */
  function Limit(s: seq<nat>, n: int): seq<nat> {
    if 0 <= n < |s| then s[..n] else s
  }

  /** Delays that repeat exactly: below a minute, and whole minutes added off the minute. */
  predicate Steady(now: nat, task: TimerTask) {
    && task.hours == 0
    && (task.minutes == 0 || (task.seconds == 0 && now % 60 != 0))
  }

  lemma {:induction false} SteadyStep(now: nat, task: TimerTask)
    requires task.Normal() && task.Delay() > 0 && Steady(now, task)
    ensures Due(now, task) == now + task.Delay() && !Rollover(now, task) && Steady(now + task.Delay(), task)
  {
    DueIsExact(now, task);
    if task.minutes != 0 { ModAddMultiple(now, task.minutes); }
  }

  lemma ModAddMultiple(x: nat, m: nat)
    ensures (x + 60 * m) % 60 == x % 60
  {
  }

  /** A steady task with count n runs at now + d, ..., now + n*d and no more; with -1, at every now + k*d. */
  lemma {:induction false} SteadyPlan(now: nat, task: TimerTask, c: int, horizon: nat)
    requires task.Normal() && task.Delay() > 0 && Steady(now, task)
    ensures Plan(now, task, c, horizon) == Limit(Every(now, task.Delay(), horizon), c)
    decreases horizon - now
  {
    hide Due, Rollover, Steady;
    var d := task.Delay();
    if c != 0 {
      SteadyStep(now, task);
      if now + d < horizon {
        SteadyPlan(now + d, task, Next(c), horizon);
        var rest := Every(now + d, d, horizon);
        if 0 < c < |rest| + 1 { assert ([now + d] + rest)[..c] == [now + d] + rest[..c - 1]; }
      }
    }
  }

  // ---- the record of a counted task ----

  /** None of the next c runs falls into a rollover. */
  predicate Unbroken(last: nat, task: TimerTask, c: nat)
    requires task.Normal()
    decreases c
  {
    c == 0 || (!Rollover(last, task) && Unbroken(Due(last, task), task, c - 1))
  }

  /** When the last of the next c runs is due; one inside a rollover is the last. */
  function LastDue(last: nat, task: TimerTask, c: nat): nat
    requires task.Normal()
    decreases c
  {
    if c == 0 then last
    else if Rollover(last, task) then Due(last, task)
    else LastDue(Due(last, task), task, c - 1)
  }

  lemma {:induction false} LastDueIsLater(last: nat, task: TimerTask, c: nat)
    requires task.Normal() && task.Delay() > 0 && c > 0
    ensures Due(last, task) <= LastDue(last, task, c)
    decreases c
  {
    hide Due, Rollover;
    if !Rollover(last, task) && c > 1 {
      DueIsLater(Due(last, task), task);
      LastDueIsLater(Due(last, task), task, c - 1);
    }
  }

  /** The plan of a counted task ends at that value, and has all its runs when none falls into a rollover. */
  lemma {:induction false} PlanEnds(now: nat, task: TimerTask, c: nat, horizon: nat)
    requires task.Normal() && task.Delay() > 0 && c > 0 && LastDue(now, task, c) < horizon
    ensures var plan := Plan(now, task, c, horizon);
      plan != [] && plan[|plan| - 1] == LastDue(now, task, c) && (Unbroken(now, task, c) ==> |plan| == c)
    decreases c
  {
    hide Due, Rollover;
    LastDueIsLater(now, task, c);
    if !Rollover(now, task) {
      if c > 1 { PlanEnds(Due(now, task), task, c - 1, horizon); }
    }
  }

  /** A steady task has all its runs, the last at its count times its delay. */
  lemma {:induction false} SteadyIsUnbroken(now: nat, task: TimerTask, c: nat)
    requires task.Normal() && task.Delay() > 0 && Steady(now, task)
    ensures Unbroken(now, task, c) && LastDue(now, task, c) == now + c * task.Delay()
    decreases c
  {
    hide Due, Rollover, Steady;
    if c > 0 {
      SteadyStep(now, task);
      SteadyIsUnbroken(now + task.Delay(), task, c - 1);
      assert c * task.Delay() == (c - 1) * task.Delay() + task.Delay();
    }
  }

  /** Gone without a record, gone with a record, or waiting for the runs that decide which. */
  ghost predicate Tracks(t: Table, task: TimerTask, unbroken: bool, end: nat) {
    || (Absent(t, task.id) && (task.id in t.registered <==> !unbroken))
    || exists last: nat, c: nat :: TracksFrom(t, task, unbroken, end, last, c)
  }

  ghost predicate TracksFrom(t: Table, task: TimerTask, unbroken: bool, end: nat, last: nat, c: nat) {
    && Awaiting(t, task, last, c) && EntryFor(last, task).RunTick() >= t.now
    && unbroken == Unbroken(last, task, c) && end == LastDue(last, task, c)
  }

  lemma {:induction false} SubmitTracks(t: Table, task: TimerTask)
    requires t.Keyed() && task.Normal() && task.cycle > 1 && task.Delay() > 0
    requires Absent(t, task.id) && task.id !in t.registered
    ensures Tracks(TableSubmit(t, task), task, Unbroken(t.now, task, task.cycle), LastDue(t.now, task, task.cycle))
  {
    hide Unbroken, LastDue;
    var t' := TableSubmit(t, task);
    var e := EntryFor(t.now, task);
    DueIsLater(t.now, task);
    assert task.(cycle := task.cycle) == task;
    assert t'.entries == t.entries + multiset{e};
    assert Sole(t', e);
    assert TracksFrom(t', task, Unbroken(t.now, task, task.cycle), LastDue(t.now, task, task.cycle), t.now, task.cycle);
  }

  lemma {:induction false} SameForTracks(t: Table, t': Table, task: TimerTask, unbroken: bool, end: nat)
    requires SameFor(t, t', task.id) && Tracks(t, task, unbroken, end)
    ensures Tracks(t', task, unbroken, end)
  {
    hide Due, Rollover, Unbroken, LastDue;
    if last: nat, c: nat :| TracksFrom(t, task, unbroken, end, last, c) {
      assert Sole(t', WaitingEntry(last, task, c));
      assert TracksFrom(t', task, unbroken, end, last, c);
    } else {
      assert Absent(t', task.id);
    }
  }

  lemma {:induction false} FireTracks(t: Table, task: TimerTask, unbroken: bool, end: nat, last: nat, c: nat)
    requires t.Keyed() && Absent(t, task.id) && 0 < c <= task.cycle && task.cycle > 1
    requires task.Normal() && task.Delay() > 0
    requires task.id in t.registered && t.registered[task.id] == task.(cycle := c)
    requires unbroken == Unbroken(last, task, c) && end == LastDue(last, task, c)
    requires DueNow(EntryFor(last, task), t.now)
    ensures Tracks(Fire(t, WaitingEntry(last, task, c)), task, unbroken, end)
  {
    hide Due, Rollover, RunsOf;
    var t' := Fire(t, WaitingEntry(last, task, c));
    assert unbroken == Unbroken(t.now, task, c - 1) && end == LastDue(t.now, task, c - 1);
    if c == 1 {
      assert Absent(t', task.id);
    } else {
      var e := WaitingEntry(t.now, task, c - 1);
      EntryKeepsDelay(t.now, task, c - 1);
      DueIsLater(t.now, task);
      assert t'.entries == t.entries + multiset{e};
      assert Sole(t', e);
      assert TracksFrom(t', task, unbroken, end, t.now, c - 1);
    }
  }

  lemma {:induction false} FirePhaseTracks(t: Table, due: seq<Entry>, task: TimerTask, unbroken: bool, end: nat)
    requires t.Keyed() && ListsDueNow(due, t.entries, t.now) && task.cycle > 1
    requires Tracks(t, task, unbroken, end)
    ensures Tracks(FirePhase(t, due), task, unbroken, end)
  {
    hide Due, Rollover, RunsOf, FireAll, LogAll, Tracks, Fire, Unbroken, LastDue, FirePhase;
    if last: nat, c: nat :| TracksFrom(t, task, unbroken, end, last, c) && DueNow(EntryFor(last, task), t.now) {
      var t0, post := CutFirePhase(t, due, WaitingEntry(last, task, c));
      FireTracks(t0, task, unbroken, end, last, c);
      var t2 := Fire(t0, WaitingEntry(last, task, c));
      FireOthers(t2, post, task.id);
      SameForTracks(t2, FireAll(t2, post), task, unbroken, end);
    } else {
      TracksNotDue(t, task, unbroken, end);
      FireSkipped(t, due, task);
      SameForTracks(t, FirePhase(t, due), task, unbroken, end);
    }
  }

  lemma {:induction false} TracksNotDue(t: Table, task: TimerTask, unbroken: bool, end: nat)
    requires Tracks(t, task, unbroken, end)
    requires forall last: nat, c: nat ::
      TracksFrom(t, task, unbroken, end, last, c) ==> !DueNow(EntryFor(last, task), t.now)
    ensures forall e: Entry :: e in t.entries && e.id == task.id ==> !DueNow(e, t.now)
  {
    hide Due, Rollover, Unbroken, LastDue;
    if last: nat, c: nat :| TracksFrom(t, task, unbroken, end, last, c) {
      assert Sole(t, WaitingEntry(last, task, c));
    }
  }

  /** A run inside the rollover leaves the record behind. */
  lemma {:induction false} RolloverTracks(t: Table, roll: seq<Entry>, task: TimerTask, unbroken: bool, end: nat)
    requires ListsDueAtRollover(roll, t.entries, t.now) && task.cycle > 1
    requires forall e: Entry :: e in t.entries ==> !DueNow(e, t.now)
    requires Tracks(t, task, unbroken, end)
    ensures Tracks(RolloverPhase(t, roll), task, unbroken, end)
  {
    hide Due, Rollover, RunsOf, LogAll;
    var t' := RolloverPhase(t, roll);
    if last: nat, c: nat :| TracksFrom(t, task, unbroken, end, last, c) {
      var e := WaitingEntry(last, task, c);
      if DueAtRollover(e, t.now) {
        assert multiset(roll)[e] == 1;
        assert Absent(t', task.id);
      } else {
        assert multiset(roll)[e] == 0;
        assert e in t.entries;
        assert Sole(t', e);
        assert TracksFrom(t', task, unbroken, end, last, c);
      }
    } else {
      assert Absent(t', task.id);
    }
  }

  lemma {:induction false} TickTracks(
    t: Table, due: seq<Entry>, roll: seq<Entry>, t': Table, task: TimerTask, unbroken: bool, end: nat)
    requires t.Keyed() && TableTick(t, due, roll, t') && task.cycle > 1
    requires Tracks(t, task, unbroken, end)
    ensures Tracks(t', task, unbroken, end)
  {
    hide Tracks, FirePhase;
    FirePhaseNoneDue(t, due);
    FirePhaseTracks(t, due, task, unbroken, end);
    RolloverTracks(FirePhase(t, due), roll, task, unbroken, end);
  }

  lemma {:induction false} RunTracks(w: Wheel, events: seq<Event>, task: TimerTask, unbroken: bool, end: nat)
    requires w.Valid() && NormalEvents(events) && Without(events, task.id) && task.cycle > 1
    requires Tracks(Abs(w), task, unbroken, end)
    ensures Tracks(Abs(RunWheel(w, events)), task, unbroken, end)
    decreases events
  {
    hide Abs, Tick, Submit, Tracks, TableTick, TableSubmit;
    if events != [] {
      var w1 := Apply(w, events[0]);
      match events[0] {
        case Ticked =>
          var due, roll := TickRefines(w);
          TickTracks(Abs(w), due, roll, Abs(w1), task, unbroken, end);
        case Submitted(other) =>
          SubmitRefines(w, other);
          SubmitSame(Abs(w), other, task.id);
          SameForTracks(Abs(w), Abs(w1), task, unbroken, end);
      }
      RunTracks(w1, events[1..], task, unbroken, end);
    }
  }

  lemma {:induction false} SubmitSame(t: Table, other: TimerTask, id: string)
    requires t.Keyed() && other.Normal() && other.id != id
    ensures SameFor(t, TableSubmit(t, other), id)
  {
    hide Due, RunsOf;
  }

  lemma {:induction false} TracksOver(t: Table, task: TimerTask, unbroken: bool, end: nat)
    requires Tracks(t, task, unbroken, end) && t.now > end
    ensures task.id in t.registered <==> !unbroken
  {
    hide Due, Rollover, Unbroken, LastDue, Sole;
    if last: nat, c: nat :| TracksFrom(t, task, unbroken, end, last, c) {
      LastDueIsLater(last, task, c);
      assert false;
    }
  }

  /**
   When the repetitions of a counted task are over, its record is gone if and only if none of its
   runs fell into a rollover; otherwise the record stays for ever.
   */
  lemma {:induction false} CountedTaskLeaves(w: Wheel, task: TimerTask, events: seq<Event>)
    requires w.Valid() && Fresh(w, task.id) && task.Normal() && task.cycle > 1 && task.Delay() > 0
    requires NormalEvents(events) && Without(events, task.id)
    requires RunWheel(Submit(w, task), events).Clock() > LastDue(w.Clock(), task, task.cycle)
    ensures task.id !in RunWheel(Submit(w, task), events).registered <==> Unbroken(w.Clock(), task, task.cycle)
  {
    hide Abs, Submit, TableSubmit, Unbroken, LastDue, Tracks;
    var w1 := Submit(w, task);
    var unbroken, last := Unbroken(w.Clock(), task, task.cycle), LastDue(w.Clock(), task, task.cycle);
    FreshIsAbsent(w, task.id);
    AbsNow(w);
    AbsNow(w1);
    SubmitRefines(w, task);
    SubmitTracks(Abs(w), task);
    RunTracks(w1, events, task, unbroken, last);
    var end := RunWheel(w1, events);
    AbsNow(end);
    TracksOver(Abs(end), task, unbroken, last);
  }

  /** One that repeats at whole minutes, added on a full minute, runs once and leaves its record, whatever its count. */
  lemma {:induction false} WholeMinuteKeepsRecord(w: Wheel, task: TimerTask, events: seq<Event>)
    requires w.Valid() && Fresh(w, task.id) && task.Normal() && task.cycle > 1
    requires task.hours == 0 && task.minutes != 0 && task.seconds == 0 && w.Clock() % 60 == 0
    requires NormalEvents(events) && Without(events, task.id)
    requires RunWheel(Submit(w, task), events).Clock() > w.Clock() + task.Delay()
    ensures task.id in RunWheel(Submit(w, task), events).registered
  {
    hide RunWheel, Submit;
    DueIsExact(w.Clock(), task);
    assert Rollover(w.Clock(), task);
    CountedTaskLeaves(w, task, events);
  }

  /**
   An endless task keeps its period for ever exactly when its delay is steady.  In every other
   case it runs early or late, or stops, after finitely many runs.
   */
  lemma {:induction false} KeepsPeriodIff(now: nat, task: TimerTask)
    requires task.Normal() && task.Delay() > 0
    ensures (forall horizon: nat :: Plan(now, task, -1, horizon) == Every(now, task.Delay(), horizon))
            <==> Steady(now, task)
  {
    if Steady(now, task) {
      forall horizon: nat ensures Plan(now, task, -1, horizon) == Every(now, task.Delay(), horizon) {
        SteadyPlan(now, task, -1, horizon);
      }
    } else {
      var horizon := LosesPeriod(now, task);
    }
  }

  /** What is left before the next run must lose its period: seconds to a carry, or hours to a new day. */
  function Slack(now: nat, task: TimerTask): nat {
    if task.hours == 0 then 60 - now % 60
    else
      var limit := 24 * ((task.hours - 1) / 24 + 1);
      if now / 3600 < limit then limit - now / 3600 else 0
  }

  lemma {:induction false} LosesPeriod(now: nat, task: TimerTask) returns (horizon: nat)
    requires task.Normal() && task.Delay() > 0 && !Steady(now, task)
    ensures horizon > now && Plan(now, task, -1, horizon) != Every(now, task.Delay(), horizon)
    decreases Slack(now, task)
  {
    var d := task.Delay();
    DueIsLater(now, task);
    DueIsExact(now, task);
    if Due(now, task) != now + d {
      horizon := Due(now, task) + d + now + 1;
      assert Plan(now, task, -1, horizon)[0] == Due(now, task);
      assert Every(now, d, horizon)[0] == now + d;
    } else if Rollover(now, task) {
      horizon := now + 2 * d + 1;
      assert Every(now, d, horizon) == [now + d] + Every(now + d, d, horizon);
      assert Every(now + d, d, horizon)[0] == now + 2 * d;
    } else {
      NextSlack(now, task);
      horizon := LosesPeriod(now + d, task);
      assert Plan(now, task, -1, horizon) == [now + d] + Plan(now + d, task, -1, horizon);
      assert Every(now, d, horizon) == [now + d] + Every(now + d, d, horizon);
      assert Plan(now, task, -1, horizon)[1..] == Plan(now + d, task, -1, horizon);
    }
  }

  lemma {:induction false} NextSlack(now: nat, task: TimerTask)
    requires task.Normal() && task.Delay() > 0 && !Steady(now, task)
    requires KeepsCarries(now, task) && !Rollover(now, task)
    ensures !Steady(now + task.Delay(), task)
    ensures Slack(now + task.Delay(), task) < Slack(now, task)
  {
    if task.hours == 0 {
      assert task.seconds != 0;
      ModAddMultiple(now + task.seconds, task.minutes);
      SecondsAdd(now, task.seconds);
    } else {
      hide Wrap, Rollover, Steady;
      HoursGrow(now, task);
      assert task.hours + now / 3600 < 24 * ((task.hours - 1) / 24 + 1);
    }
  }

  lemma SecondsAdd(now: nat, s: nat)
    requires now % 60 + s < 60
    ensures (now + s) % 60 == now % 60 + s
  {
  }

  lemma {:induction false} HoursGrow(now: nat, task: TimerTask)
    ensures (now + task.Delay()) / 3600 >= now / 3600 + task.hours
  {
    var r := now % 3600 + 60 * task.minutes + task.seconds;
    assert now + task.Delay() == 3600 * (now / 3600 + task.hours) + r;
  }

  /** A whole-minute task added on a full minute runs once, its delay later, and never again, whatever its count. */
  lemma {:induction false} WholeMinuteOnTheMinuteStops(now: nat, task: TimerTask, c: int, horizon: nat)
    requires now % 60 == 0 && task.Normal() && task.hours == 0 && task.minutes > 0 && task.seconds == 0 && c != 0
    ensures Plan(now, task, c, horizon) == if now + task.Delay() <= horizon then [now + task.Delay()] else []
  {
    assert now == 60 * (now / 60);
  }

  // ---- at most one node per id ----

  ghost predicate AtMostOne(t: Table, id: string) {
    Absent(t, id) || exists e: Entry :: e.id == id && Sole(t, e)
  }

  lemma {:induction false} TickKeepsOne(t: Table, due: seq<Entry>, roll: seq<Entry>, t': Table, id: string)
    requires t.Keyed() && TableTick(t, due, roll, t') && AtMostOne(t, id)
    ensures AtMostOne(t', id)
    ensures Absent(t, id) ==> Absent(t', id)
  {
    hide Due, Rollover, RunsOf, FireAll, LogAll;
    var t1 := FirePhase(t, due);
    if e: Entry :| e.id == id && Sole(t, e) && DueNow(e, t.now) {
      var t0, post := CutFirePhase(t, due, e);
      var t2 := Fire(t0, e);
      FireOthers(t2, post, id);
      if !Absent(t2, id) {
        var next := EntryFor(t0.now, Countdown(t0.registered[id]));
        assert Sole(t2, next);
        assert Sole(t1, next);
      }
    } else {
      SkippedSame(t, due, id);
      if e: Entry :| e.id == id && Sole(t, e) { assert Sole(t1, e); }
    }
    assert AtMostOne(t1, id);
    RolloverKeepsOne(t1, roll, id);
  }

  lemma {:induction false} RolloverKeepsOne(t: Table, roll: seq<Entry>, id: string)
    requires ListsDueAtRollover(roll, t.entries, t.now) && AtMostOne(t, id)
    ensures AtMostOne(RolloverPhase(t, roll), id)
    ensures Absent(t, id) ==> Absent(RolloverPhase(t, roll), id)
  {
    var t' := RolloverPhase(t, roll);
    forall x: Entry ensures t'.entries[x] == if DueAtRollover(x, t.now) then 0 else t.entries[x] {
    }
    if e: Entry :| e.id == id && Sole(t, e) && !DueAtRollover(e, t.now) {
      assert Sole(t', e);
    } else {
      assert Absent(t', id);
    }
  }

  lemma {:induction false} SkippedSame(t: Table, due: seq<Entry>, id: string)
    requires t.Keyed() && ListsDueNow(due, t.entries, t.now)
    requires forall e: Entry :: e in t.entries && e.id == id ==> !DueNow(e, t.now)
    ensures SameFor(t, FirePhase(t, due), id)
  {
    FireSkipped(t, due, TimerTask(0, 0, 0, 0, id, false));
  }

  /** Ids submitted once are held at most once, in every state of every run. */
  lemma {:induction false} HeldAtMostOnce(w: Wheel, events: seq<Event>, id: string)
    requires w.Valid() && NormalEvents(events) && AtMostOne(Abs(w), id)
    requires forall i :: 0 <= i < |events| && SubmitsNode(events[i], id) ==>
      Absent(Abs(w), id) && forall j :: i < j < |events| ==> !SubmitsNode(events[j], id)
    ensures AtMostOne(Abs(RunWheel(w, events)), id)
    decreases events
  {
    hide Abs, Tick, Submit, TableTick, AtMostOne, Absent, TableSubmit;
    if events != [] {
      var w1 := Apply(w, events[0]);
      match events[0] {
        case Ticked =>
          var due, roll := TickRefines(w);
          TickKeepsOne(Abs(w), due, roll, Abs(w1), id);
        case Submitted(task) =>
          SubmitRefines(w, task);
          SubmitKeepsOne(Abs(w), task, id);
      }
      HeldAtMostOnce(w1, events[1..], id);
    }
  }

  /** A new timer holds nothing of any id. */
  lemma {:induction false} StartsFresh(id: string)
    ensures Fresh(EmptyWheel(), id) && AtMostOne(Abs(EmptyWheel()), id)
  {
    FreshIsAbsent(EmptyWheel(), id);
  }

  /** From the start of the timer, an id for which one node is submitted is never held twice. */
  lemma {:induction false} NeverHeldTwice(events: seq<Event>, id: string)
    requires NormalEvents(events)
    requires forall i, j :: 0 <= i < j < |events| ==> !(SubmitsNode(events[i], id) && SubmitsNode(events[j], id))
    ensures AtMostOne(Abs(RunWheel(EmptyWheel(), events)), id)
  {
    hide RunWheel, AtMostOne, Abs;
    StartsFresh(id);
    FreshIsAbsent(EmptyWheel(), id);
    HeldAtMostOnce(EmptyWheel(), events, id);
  }

  predicate SubmitsNode(event: Event, id: string) {
    event.Submitted? && event.task.id == id && event.task.cycle != 0
  }

  lemma {:induction false} SubmitKeepsOne(t: Table, task: TimerTask, id: string)
    requires t.Keyed() && task.Normal() && AtMostOne(t, id)
    requires task.id == id && task.cycle != 0 ==> Absent(t, id)
    ensures AtMostOne(TableSubmit(t, task), id)
    ensures (task.id != id || task.cycle == 0) && Absent(t, id) ==> Absent(TableSubmit(t, task), id)
  {
    hide Due, Rollover;
    var t' := TableSubmit(t, task);
    if task.id == id && task.cycle != 0 && task.Delay() > 0 {
      assert Sole(t', EntryFor(t.now, task));
    } else if e: Entry :| e.id == id && Sole(t, e) {
      assert Sole(t', e);
    }
  }

  // ---- cancellation ----

  /** A waiting entry whose record is gone, or the id is gone; `total` is what its log will be. */
  ghost predicate Cancelled(t: Table, e: Entry, horizon: nat, total: seq<nat>) {
    && e.id !in t.registered
    && (|| (Sole(t, e) && e.RunTick() >= t.now
            && RunsOf(t.log, e.id) + (if e.callable && e.RunTick() < horizon then [e.due] else []) == total)
        || (Absent(t, e.id) && RunsOf(t.log, e.id) == total))
  }

  lemma {:induction false} TickCancelled(t: Table, due: seq<Entry>, roll: seq<Entry>, t': Table,
                                         e: Entry, horizon: nat, total: seq<nat>)
    requires t.Keyed() && TableTick(t, due, roll, t') && t.now < horizon && Cancelled(t, e, horizon, total)
    ensures Cancelled(t', e, horizon, total)
  {
    hide Due, Rollover, RunsOf, FireAll, LogAll;
    var t1 := FirePhase(t, due);
    if Sole(t, e) && DueNow(e, t.now) {
      var t0, post := CutFirePhase(t, due, e);
      RunsOfLogged(t0.log, e, e.id);
      FireOthers(Fire(t0, e), post, e.id);
      assert Absent(t1, e.id);
    } else {
      SkippedSame(t, due, e.id);
      assert Sole(t, e) ==> Sole(t1, e);
    }
    FirePhaseNoneDue(t, due);
    RolloverCancelled(t1, roll, e, horizon, total);
  }

  lemma {:induction false} RolloverCancelled(t: Table, roll: seq<Entry>, e: Entry, horizon: nat, total: seq<nat>)
    requires ListsDueAtRollover(roll, t.entries, t.now) && t.now < horizon && Cancelled(t, e, horizon, total)
    requires forall x: Entry :: x in t.entries ==> !DueNow(x, t.now)
    ensures Cancelled(RolloverPhase(t, roll), e, horizon, total)
  {
    hide RunsOf, LogAll;
    var t' := RolloverPhase(t, roll);
    forall x: Entry ensures t'.entries[x] == if DueAtRollover(x, t.now) then 0 else t.entries[x] {
    }
    if Sole(t, e) && DueAtRollover(e, t.now) {
      forall x | x in roll && x.id == e.id ensures x == e {
        assert x in multiset(roll);
      }
      LogOnly(t.log, roll, e);
      assert Absent(t', e.id);
    } else {
      NotListed(roll, t.entries, t.now, e.id);
      LogOthers(t.log, roll, e.id);
      if Sole(t, e) {
        assert e in t.entries;
        assert Sole(t', e);
      }
    }
  }

  lemma {:induction false} RunCancelled(w: Wheel, events: seq<Event>, e: Entry, total: seq<nat>)
    requires w.Valid() && NormalEvents(events) && Without(events, e.id)
    requires Cancelled(Abs(w), e, RunWheel(w, events).Clock(), total)
    ensures Cancelled(Abs(RunWheel(w, events)), e, RunWheel(w, events).Clock(), total)
    decreases events
  {
    hide Abs, Tick, Submit, Cancelled, TableTick, TableSubmit;
    if events != [] {
      var horizon := RunWheel(w, events).Clock();
      var w1 := Apply(w, events[0]);
      AbsNow(w);
      ClockMoves(w, events[0]);
      ClockGrows(w1, events[1..]);
      match events[0] {
        case Ticked =>
          var due, roll := TickRefines(w);
          TickCancelled(Abs(w), due, roll, Abs(w1), e, horizon, total);
        case Submitted(other) =>
          SubmitRefines(w, other);
          SubmitSame(Abs(w), other, e.id);
          SameForCancelled(Abs(w), Abs(w1), e, horizon, total);
      }
      RunCancelled(w1, events[1..], e, total);
    }
  }

  lemma {:induction false} SameForCancelled(t: Table, t': Table, e: Entry, horizon: nat, total: seq<nat>)
    requires SameFor(t, t', e.id) && Cancelled(t, e, horizon, total)
    ensures Cancelled(t', e, horizon, total)
  {
    if Sole(t, e) {
      assert Sole(t', e);
    } else {
      assert Absent(t', e.id);
    }
  }

  /**
   Once a cycle-0 task is processed, an id held in one node runs exactly once more, at the due
   value that node already had, and never again.
   */
  lemma {:induction false} CancelRunsOnceMore(w: Wheel, cancel: TimerTask, e: Entry, events: seq<Event>)
    requires w.Valid() && cancel.Normal() && cancel.cycle == 0 && cancel.id == e.id && Sole(Abs(w), e)
    requires NormalEvents(events) && Without(events, e.id)
    ensures var end := RunWheel(Submit(w, cancel), events);
      RunsOf(end.log, e.id)
      == RunsOf(w.log, e.id) + if e.callable && e.RunTick() < end.Clock() then [e.due] else []
  {
    hide Abs;
    var w1 := Submit(w, cancel);
    var end := RunWheel(w1, events);
    var total := RunsOf(w.log, e.id) + if e.callable && e.RunTick() < end.Clock() then [e.due] else [];
    NoneOverdue(w, e);
    SubmitRefines(w, cancel);
    AbsNow(w);
    assert Sole(Abs(w1), e);
    RunCancelled(w1, events, e, total);
    AbsNow(end);
    if Sole(Abs(end), e) { NoneOverdue(end, e); }
  }
}
