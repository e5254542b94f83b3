/**
 Per-task behaviour of the deadline table: the clock values at which one task runs, over any
 number of ticks and among any other tasks, are given by the closed recursion `Plan`.
 */
module Schedule {
  import opened TimingWheel
  import opened DeadlineTable

  /** The count after one more run. */
  function Next(c: int): int { if c > 0 then c - 1 else c }

  /**
   The clock values below the horizon at which a task added at `now` with count `c` runs.
   A run inside a rollover is the last one, whatever the count.
   */
  function Plan(now: nat, task: TimerTask, c: int, horizon: nat): seq<nat>
    requires task.Normal()
    decreases horizon - now
  {
    if c == 0 || task.Delay() == 0 then []
    else
      DueIsLater(now, task);
      var due := Due(now, task);
      if Rollover(now, task) then if due - 1 < horizon then [due] else []
      else if due < horizon then [due] + Plan(due, task, Next(c), horizon)
      else []
  }

  /** Calls of an empty function object leave no trace. */
  function Shown(task: TimerTask, plan: seq<nat>): seq<nat> { if task.callable then plan else [] }

  ghost predicate Absent(t: Table, id: string) { forall e: Entry :: e in t.entries ==> e.id != id }

  ghost predicate Sole(t: Table, e: Entry) {
    t.entries[e] == 1 && forall x: Entry :: x in t.entries && x.id == e.id ==> x == e
  }

  function WaitingEntry(last: nat, task: TimerTask, c: int): Entry
    requires task.Normal()
  {
    EntryFor(last, task).(cycle := c)
  }

  lemma {:induction false} EntryKeepsDelay(now: nat, task: TimerTask, c: int)
    requires task.Normal()
    ensures EntryFor(now, task.(cycle := c)) == WaitingEntry(now, task, c)
  {
  }

  /** The task was last run (or added) at `last`, has `c` runs left, and waits in one entry. */
  ghost predicate Awaiting(t: Table, task: TimerTask, last: nat, c: int) {
    && task.Normal() && task.Delay() > 0
    && c != 0 && (c == task.cycle || 0 < c < task.cycle)
    && Sole(t, WaitingEntry(last, task, c))
    && (if task.cycle == 1 then task.id !in t.registered
        else task.id in t.registered && t.registered[task.id] == task.(cycle := c))
  }

  /** What the log holds of the task, with what it is still planned to run, is `total`. */
  ghost predicate Follows(t: Table, task: TimerTask, horizon: nat, total: seq<nat>) {
    task.Normal() &&
    ((exists last: nat, c: int :: AwaitingWith(t, task, last, c, horizon, total))
     || (Absent(t, task.id) && RunsOf(t.log, task.id) == total))
  }

  ghost predicate AwaitingWith(t: Table, task: TimerTask, last: nat, c: int, horizon: nat, total: seq<nat>)
  {
    && Awaiting(t, task, last, c)
    && EntryFor(last, task).RunTick() >= t.now
    && RunsOf(t.log, task.id) + Shown(task, Plan(last, task, c, horizon)) == total
  }

  // ---- one id is untouched by the runs of the others ----

  ghost predicate SameFor(t: Table, t': Table, id: string) {
    && t'.now == t.now
    && RunsOf(t'.log, id) == RunsOf(t.log, id)
    && (id in t'.registered <==> id in t.registered)
    && (id in t.registered ==> t'.registered[id] == t.registered[id])
    && (forall x: Entry :: x.id == id ==> t'.entries[x] == t.entries[x])
  }

  lemma {:induction false} RunsOfLogged(log: seq<Run>, e: Entry, id: string)
    ensures RunsOf(Logged(log, e), id) == RunsOf(log, id) + if e.callable && e.id == id then [e.due] else []
  {
    if e.callable {
      var log' := log + [Run(e.id, e.due)];
      assert log'[..|log'| - 1] == log;
    }
  }

  lemma {:induction false} FireOther(t: Table, e: Entry, id: string)
    requires t.Keyed() && e.id != id
    ensures SameFor(t, Fire(t, e), id)
  {
    hide Due, RunsOf;
    RunsOfLogged(t.log, e, id);
  }

  lemma {:induction false} FireOthers(t: Table, es: seq<Entry>, id: string)
    requires t.Keyed() && forall i :: 0 <= i < |es| ==> es[i].id != id
    ensures SameFor(t, FireAll(t, es), id)
    decreases es
  {
    if es != [] {
      FireOther(t, es[0], id);
      FireOthers(Fire(t, es[0]), es[1..], id);
    }
  }

  lemma {:induction false} FireAllAppend(t: Table, a: seq<Entry>, b: seq<Entry>)
    requires t.Keyed()
    ensures FireAll(t, a + b) == FireAll(FireAll(t, a), b)
    decreases a
  {
    if a == [] {
      assert a + b == b;
    } else {
      assert (a + b)[1..] == a[1..] + b;
      FireAllAppend(Fire(t, a[0]), a[1..], b);
    }
  }

  lemma {:induction false} LogOthers(log: seq<Run>, es: seq<Entry>, id: string)
    requires forall i :: 0 <= i < |es| ==> es[i].id != id
    ensures RunsOf(LogAll(log, es), id) == RunsOf(log, id)
    decreases es
  {
    if es != [] {
      RunsOfLogged(log, es[0], id);
      LogOthers(Logged(log, es[0]), es[1..], id);
    }
  }

  /** An element occurring once splits a list into parts that do not hold it. */
  lemma {:induction false} SplitAt(es: seq<Entry>, e: Entry) returns (pre: seq<Entry>, post: seq<Entry>)
    requires multiset(es)[e] == 1
    ensures es == pre + [e] + post && e !in pre && e !in post
    ensures forall x :: x in pre || x in post ==> x in es
  {
    assert e in multiset(es);
    var i :| 0 <= i < |es| && es[i] == e;
    pre, post := es[..i], es[i + 1..];
    assert es == pre + [e] + post;
    assert multiset(es) == multiset(pre) + multiset{e} + multiset(post);
    assert e !in multiset(pre) && e !in multiset(post);
  }

  lemma {:induction false} NotListed(es: seq<Entry>, entries: multiset<Entry>, now: nat, id: string)
    requires ListsDueNow(es, entries, now) || ListsDueAtRollover(es, entries, now)
    requires forall e: Entry :: e in entries && e.id == id ==> e !in multiset(es)
    ensures forall i :: 0 <= i < |es| ==> es[i].id != id
  {
    forall i | 0 <= i < |es| ensures es[i].id != id {
      assert es[i] in multiset(es);
    }
  }

  // ---- the two phases of a tick ----

  /** The first phase, cut at the one entry of an id: nothing of the id is left when it runs. */
  lemma {:induction false} CutFirePhase(t: Table, due: seq<Entry>, e: Entry) returns (t1: Table, post: seq<Entry>)
    requires t.Keyed() && ListsDueNow(due, t.entries, t.now)
    requires Sole(t, e) && DueNow(e, t.now)
    ensures t1.Keyed() && t1.now == t.now && Absent(t1, e.id)
    ensures RunsOf(t1.log, e.id) == RunsOf(t.log, e.id)
    ensures e.id in t1.registered <==> e.id in t.registered
    ensures e.id in t1.registered ==> t1.registered[e.id] == t.registered[e.id]
    ensures forall i :: 0 <= i < |post| ==> post[i].id != e.id
    ensures FirePhase(t, due) == FireAll(Fire(t1, e), post)
  {
    hide Due, RunsOf;
    var pre;
    assert multiset(due)[e] == 1;
    pre, post := SplitAt(due, e);
    forall x | x in pre || x in post ensures x.id != e.id {
      assert x in multiset(due);
      assert x in t.entries;
    }
    var t0 := t.(entries := t.entries - multiset(due));
    FireAllAppend(t0, pre + [e], post);
    FireAllAppend(t0, pre, [e]);
    FireOthers(t0, pre, e.id);
    t1 := FireAll(t0, pre);
    assert FireAll(t1, [e]) == Fire(t1, e) by { assert [e][1..] == []; }
    forall x: Entry | x in t1.entries ensures x.id != e.id {
      if x.id == e.id { assert false; }
    }
  }

  lemma {:induction false} PlanRuns(last: nat, task: TimerTask, c: int, horizon: nat, now: nat)
    requires task.Normal() && task.Delay() > 0 && c != 0 && now < horizon
    requires DueNow(EntryFor(last, task), now)
    ensures Plan(last, task, c, horizon) == [now] + Plan(now, task, Next(c), horizon)
  {
  }

  lemma {:induction false} ShownAppend(task: TimerTask, done: seq<nat>, first: nat, rest: seq<nat>)
    ensures done + Shown(task, [first] + rest) == done + Shown(task, [first]) + Shown(task, rest)
  {
  }

  /** The run of an awaited task: it is over, or it waits again with one run less. */
  lemma {:induction false} FireAwaited(t: Table, task: TimerTask, last: nat, c: int, horizon: nat, total: seq<nat>)
    requires t.Keyed() && t.now < horizon
    requires task.Normal() && task.Delay() > 0 && c != 0 && (c == task.cycle || 0 < c < task.cycle)
    requires Absent(t, task.id)
    requires if task.cycle == 1 then task.id !in t.registered
             else task.id in t.registered && t.registered[task.id] == task.(cycle := c)
    requires RunsOf(t.log, task.id) + Shown(task, Plan(last, task, c, horizon)) == total
    requires DueNow(EntryFor(last, task), t.now)
    ensures Follows(Fire(t, WaitingEntry(last, task, c)), task, horizon, total)
  {
    hide Due, Rollover, RunsOf;
    var e := WaitingEntry(last, task, c);
    var t' := Fire(t, e);
    RunsOfLogged(t.log, e, task.id);
    PlanRuns(last, task, c, horizon, t.now);
    ShownAppend(task, RunsOf(t.log, task.id), t.now, Plan(t.now, task, Next(c), horizon));
    if c == 1 {
      assert Plan(t.now, task, 0, horizon) == [];
      assert Absent(t', task.id);
    } else {
      var e' := WaitingEntry(t.now, task, Next(c));
      EntryKeepsDelay(t.now, task, Next(c));
      DueIsLater(t.now, task);
      assert t'.entries == t.entries + multiset{e'};
      assert Sole(t', e');
      assert AwaitingWith(t', task, t.now, Next(c), horizon, total);
    }
  }

  lemma {:induction false} FireSkipped(t: Table, due: seq<Entry>, task: TimerTask)
    requires t.Keyed() && ListsDueNow(due, t.entries, t.now)
    requires forall e: Entry :: e in t.entries && e.id == task.id ==> !DueNow(e, t.now)
    ensures SameFor(t, FirePhase(t, due), task.id)
  {
    NotListed(due, t.entries, t.now, task.id);
    FireOthers(t.(entries := t.entries - multiset(due)), due, task.id);
    forall x: Entry | x.id == task.id
      ensures (t.entries - multiset(due))[x] == t.entries[x]
    {
      assert x in t.entries ==> !DueNow(x, t.now);
    }
  }

  lemma {:induction false} SameForFollows(t: Table, t': Table, task: TimerTask, horizon: nat, total: seq<nat>)
    requires SameFor(t, t', task.id) && Follows(t, task, horizon, total)
    ensures Follows(t', task, horizon, total)
  {
    if Absent(t, task.id) && RunsOf(t.log, task.id) == total {
      assert Absent(t', task.id);
    } else {
      var last, c :| AwaitingWith(t, task, last, c, horizon, total);
      var e := WaitingEntry(last, task, c);
      assert Sole(t', e);
      assert AwaitingWith(t', task, last, c, horizon, total);
    }
  }

  /** After the first phase no entry of the task is due now any more. */
  lemma {:induction false} FirePhaseFollows(t: Table, due: seq<Entry>, task: TimerTask, horizon: nat, total: seq<nat>)
    requires t.Keyed() && ListsDueNow(due, t.entries, t.now) && t.now < horizon
    requires Follows(t, task, horizon, total)
    ensures Follows(FirePhase(t, due), task, horizon, total)
  {
    hide Due, RunsOf;
    if last: nat, c: int :| AwaitingWith(t, task, last, c, horizon, total) && DueNow(EntryFor(last, task), t.now) {
      var t1, post := CutFirePhase(t, due, WaitingEntry(last, task, c));
      FireAwaited(t1, task, last, c, horizon, total);
      var t2 := Fire(t1, WaitingEntry(last, task, c));
      FireOthers(t2, post, task.id);
      SameForFollows(t2, FireAll(t2, post), task, horizon, total);
    } else {
      if last: nat, c: int :| AwaitingWith(t, task, last, c, horizon, total) {
        assert Sole(t, WaitingEntry(last, task, c));
      }
      FireSkipped(t, due, task);
      SameForFollows(t, FirePhase(t, due), task, horizon, total);
    }
  }

  /** After the first phase, nothing is due now: what was due ran, what was re-armed is due later. */
  lemma {:induction false} FireAllNoneDue(t: Table, es: seq<Entry>)
    requires t.Keyed() && forall e: Entry :: e in t.entries ==> !DueNow(e, t.now)
    ensures forall e: Entry :: e in FireAll(t, es).entries ==> !DueNow(e, t.now)
    decreases es
  {
    if es != [] {
      var t1 := Fire(t, es[0]);
      forall e: Entry | e in t1.entries ensures !DueNow(e, t.now) {
        if e !in t.entries && es[0].id in t.registered {
          var next := Countdown(t.registered[es[0].id]);
          DueIsLater(t.now, next);
        }
      }
      FireAllNoneDue(t1, es[1..]);
    }
  }

  lemma {:induction false} FirePhaseNoneDue(t: Table, due: seq<Entry>)
    requires t.Keyed() && ListsDueNow(due, t.entries, t.now)
    ensures forall e: Entry :: e in FirePhase(t, due).entries ==> !DueNow(e, t.now)
  {
    var t0 := t.(entries := t.entries - multiset(due));
    forall e: Entry | e in t0.entries ensures !DueNow(e, t.now) {
      assert multiset(due)[e] == if DueNow(e, t.now) then t.entries[e] else 0;
    }
    FireAllNoneDue(t0, due);
  }

  lemma {:induction false} LogOnly(log: seq<Run>, es: seq<Entry>, e: Entry)
    requires multiset(es)[e] == 1 && forall x :: x in es && x.id == e.id ==> x == e
    ensures RunsOf(LogAll(log, es), e.id) == RunsOf(log, e.id) + if e.callable then [e.due] else []
  {
    hide RunsOf;
    var pre, post := SplitAt(es, e);
    LogAllAppend(log, pre + [e], post);
    LogAllAppend(log, pre, [e]);
    LogOthers(log, pre, e.id);
    var log1 := LogAll(log, pre);
    assert LogAll(log1, [e]) == Logged(log1, e) by { assert [e][1..] == []; }
    RunsOfLogged(log1, e, e.id);
    LogOthers(Logged(log1, e), post, e.id);
  }

  lemma {:induction false} RolloverAwaited(t: Table, roll: seq<Entry>, task: TimerTask, last: nat, c: int, horizon: nat, total: seq<nat>)
    requires ListsDueAtRollover(roll, t.entries, t.now) && t.now < horizon
    requires AwaitingWith(t, task, last, c, horizon, total)
    requires DueAtRollover(EntryFor(last, task), t.now)
    ensures Follows(RolloverPhase(t, roll), task, horizon, total)
  {
    hide Due, RunsOf, LogAll;
    var e := WaitingEntry(last, task, c);
    assert multiset(roll)[e] == 1;
    forall x | x in roll && x.id == task.id ensures x == e {
      assert x in multiset(roll);
      assert x in t.entries;
    }
    LogOnly(t.log, roll, e);
    assert Plan(last, task, c, horizon) == [t.now + 1];
    var t' := RolloverPhase(t, roll);
    assert RunsOf(t'.log, task.id) == total;
    forall x: Entry | x in t'.entries ensures x.id != task.id {
      if x.id == task.id { assert false; }
    }
  }

  lemma {:induction false} RolloverPhaseFollows(t: Table, roll: seq<Entry>, task: TimerTask, horizon: nat, total: seq<nat>)
    requires ListsDueAtRollover(roll, t.entries, t.now) && t.now < horizon
    requires forall e: Entry :: e in t.entries ==> !DueNow(e, t.now)
    requires Follows(t, task, horizon, total)
    ensures Follows(RolloverPhase(t, roll), task, horizon, total)
  {
    hide Due, RunsOf;
    var t' := RolloverPhase(t, roll);
    if last: nat, c: int :| AwaitingWith(t, task, last, c, horizon, total) {
      if DueAtRollover(EntryFor(last, task), t.now) {
        RolloverAwaited(t, roll, task, last, c, horizon, total);
      } else {
        var e := WaitingEntry(last, task, c);
        NotListed(roll, t.entries, t.now, task.id);
        LogOthers(t.log, roll, task.id);
        assert e !in multiset(roll);
        assert Sole(t', e);
        assert e in t.entries;
        assert AwaitingWith(t', task, last, c, horizon, total);
      }
    } else {
      NotListed(roll, t.entries, t.now, task.id);
      LogOthers(t.log, roll, task.id);
      assert Absent(t', task.id);
    }
  }

  lemma {:induction false} TickFollows(t: Table, due: seq<Entry>, roll: seq<Entry>, t': Table,
                    task: TimerTask, horizon: nat, total: seq<nat>)
    requires t.Keyed() && TableTick(t, due, roll, t') && t.now < horizon
    requires Follows(t, task, horizon, total)
    ensures t'.Keyed() && Follows(t', task, horizon, total)
  {
    FirePhaseFollows(t, due, task, horizon, total);
    FirePhaseNoneDue(t, due);
    RolloverPhaseFollows(FirePhase(t, due), roll, task, horizon, total);
  }

  lemma {:induction false} SubmitFollows(t: Table, other: TimerTask, task: TimerTask, horizon: nat, total: seq<nat>)
    requires t.Keyed() && other.Normal() && other.id != task.id
    requires Follows(t, task, horizon, total)
    ensures Follows(TableSubmit(t, other), task, horizon, total)
  {
    hide Due, RunsOf;
    SameForFollows(t, TableSubmit(t, other), task, horizon, total);
  }

  /** A task with a fresh id starts on its plan. */
  lemma {:induction false} SubmitStarts(t: Table, task: TimerTask, horizon: nat)
    requires t.Keyed() && task.Normal() && task.cycle != 0
    requires Absent(t, task.id) && task.id !in t.registered
    ensures Follows(TableSubmit(t, task), task, horizon,
                    RunsOf(t.log, task.id) + Shown(task, Plan(t.now, task, task.cycle, horizon)))
  {
    var t' := TableSubmit(t, task);
    if task.Delay() == 0 {
      assert Absent(t', task.id);
    } else {
      DueIsLater(t.now, task);
      var e := EntryFor(t.now, task);
      assert task.(cycle := task.cycle) == task;
      assert t'.entries == t.entries + multiset{e};
      assert Sole(t', e);
      assert AwaitingWith(t', task, t.now, task.cycle, horizon,
                          RunsOf(t.log, task.id) + Shown(task, Plan(t.now, task, task.cycle, horizon)));
    }
  }

  /** At the horizon the plan is exhausted: the log holds exactly the plan. */
  lemma {:induction false} FollowsToHorizon(t: Table, task: TimerTask, total: seq<nat>)
    requires Follows(t, task, t.now, total)
    ensures RunsOf(t.log, task.id) == total
  {
    if last: nat, c: int :| AwaitingWith(t, task, last, c, t.now, total) {
      assert Plan(last, task, c, t.now) == [];
    }
  }
}
