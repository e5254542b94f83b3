/**
 The worker's queue operations as the program runs them, between its own queue and the shared
 one.  Each method is one or more steps of the state machine with nobody else moving in between.
 */
module RThread {
  import opened TaskPool
  import opened TaskRuns
  import SafeQueue

  class Thread {
    const tasks: SafeQueue.SafeQueue<Task>
    var taskWithFut: Option<Task>
    var executed: seq<Task>
    var repeated: seq<Task>
    var limits: Limits

    /** The worker at a place of its code, as far as its queue operations see it. */
    ghost function At(place: Place, flags: Flags): Worker
      reads this, tasks
    {
      Worker(place, tasks.data, executed, Memory(taskWithFut, repeated), flags, limits)
    }

    constructor ()
      ensures fresh(tasks) && forall linked :: At(Starting, Flags(false, false, false, false, false, linked)) == NewWorker(linked)
    {
      tasks := new SafeQueue.SafeQueue();
      taskWithFut := None;
      executed, repeated := [], [];
      limits := Limits(10, 10 / 2, 10 / 4);
    }

    /** Pulls one task, or a batch cut to half the largest load; -1 when there is nothing to pull for or from. */
    method AddTasks(p: SafeQueue.SafeQueue?<Task>, wait: bool, n: nat) returns (r: int)
      requires p != tasks
      modifies tasks, p
      ensures n < 1 || p == null ==> r == -1 && tasks.data == old(tasks.data) && (p != null ==> p.data == old(p.data))
      ensures n >= 1 && p != null ==>
        r == PullSize(limits, n, |old(p.data)|)
      ensures n >= 1 && p != null ==> 0 <= r <= |old(p.data)| && Takes(r, n, limits.maxLoad, |old(p.data)|)
      ensures n >= 1 && p != null ==>
        tasks.data == old(tasks.data) + old(p.data)[..r] && p.data == old(p.data)[r..]
    {
      if n < 1 || p == null {
        return -1;
      }
      if n == 1 {
        var ok, task;
        if wait {
          ok, task := p.WaitAndPop();
        } else {
          ok, task := p.Pop();
        }
        if ok {
          tasks.Push(task);
          assert old(p.data)[..1] == [task];
          return 1;
        }
        return 0;
      }
      var x := Min(n, limits.maxLoad / 2);
      var temp := p.PopN(x);
      var sz := |temp|;
      if sz == 0 {
        return 0;
      }
      ghost var all := temp;
      for i := 0 to sz
        invariant temp == all[i..] && tasks.data == old(tasks.data) + all[..i]
        invariant p.data == old(p.data)[sz..]
      {
        tasks.Push(temp[0]);
        temp := temp[1..];
      }
      assert all[..sz] == all;
      r := sz;
    }

    /** Pulls nothing at high load, a few tasks at middle load, more at low load. */
    method AddByLevel(p: SafeQueue.SafeQueue?<Task>) returns (ghost moved: nat)
      requires p != tasks
      modifies tasks, p
      ensures p == null ==> tasks.data == old(tasks.data)
      ensures p != null ==>
        moved <= |old(p.data)| && tasks.data == old(tasks.data) + old(p.data)[..moved] && p.data == old(p.data)[moved..]
      ensures p != null && 5 * |old(tasks.data)| >= 4 * limits.maxLoad ==> moved == 0
      ensures p != null && limits.maxLoad <= 5 * |old(tasks.data)| < 4 * limits.maxLoad ==>
        Takes(moved, limits.light, limits.maxLoad, |old(p.data)|)
      ensures p != null && 5 * |old(tasks.data)| < limits.maxLoad ==>
        Takes(moved, limits.middle, limits.maxLoad, |old(p.data)|)
      ensures p != null ==>
        var w := old(At(Leveling(true), Flags(true, false, false, false, false, true)));
        var n := PullSize(w.limits, LevelWant(w), |old(p.data)|);
        tasks.data == old(tasks.data) + old(p.data)[..n] && p.data == old(p.data)[n..]
    {
      moved := 0;
      if p == null {
        return;
      }
      var size := tasks.Size();
      if 5 * size >= 4 * limits.maxLoad {
        assert old(tasks.data) + [] == old(tasks.data);
        return;
      }
      var x;
      if 5 * size >= limits.maxLoad {
        x := AddTasks(p, false, limits.light);
      } else {
        x := AddTasks(p, false, limits.middle);
      }
      moved := if x > 0 then x else 0;
      assert old(tasks.data) + [] == old(tasks.data);
    }

    /** Pops into the variable kept from before, whether or not there is anything, and calls what it then holds. */
    method PopAndCall(ghost held: bool, ghost flags: Flags) returns (threw: bool)
      modifies this`taskWithFut, this`executed, this`repeated, tasks
      ensures var w := PopStep(old(At(Popping(held), flags)), held);
        && (threw <==> w.place.Threw?)
        && At(if threw then Threw else Leveling(held), flags)
           == if threw then w else CallStep(w, w.place.task, w.place.again, Leveling(held))
    {
      var ok, task := tasks.Pop();
      if ok { taskWithFut := Some(task); }
      match taskWithFut
      case None => threw := true;
      case Some(last) =>
        threw := false;
        if ok { executed := executed + [last]; } else { repeated := repeated + [last]; }
    }

    /** The end of a worker told to complete, undisturbed: everything queued is called once, in order. */
    method Wipe()
      modifies this`taskWithFut, this`executed, this`repeated, tasks
      ensures tasks.data == [] && executed == old(executed) + old(tasks.data) && repeated == old(repeated)
    {
      var empty := tasks.data == [];
      while !empty
        invariant empty == (tasks.data == []) && repeated == old(repeated)
        invariant executed + tasks.data == old(executed) + old(tasks.data)
        decreases |tasks.data|
      {
        ghost var before := tasks.data;
        var threw := PopAndCall(true, Flags(false, false, true, false, false, false));
        assert before == [before[0]] + before[1..];
        empty := tasks.data == [];
      }
      assert executed + [] == executed;
    }

    /** What the command to cancel does to the queue; the flags it sets are left to the state machine. */
    method Cancel()
      modifies tasks
      ensures tasks.data == []
    {
      tasks.Clear();
    }
  }
}
