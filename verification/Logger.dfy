/**
 The logger as objects: lines that swap and hand over their two buffers, the file that rotates,
 and the logger that owns the lines, the two queues and the file.  Every method is proved to be
 the step of LogPipeline of the same name.  The buffers are values handed from owner to owner.
 */
module Logger {
  import opened LogPipeline
  import SafeQueue

  class LoggerLine {
    var a: Log
    var b: Option<Log>
    const filledQueue: SafeQueue.SafeQueue<Log>
    const emptyQueue: SafeQueue.SafeQueue<Log>

    ghost function State(): Line
      reads this
    {
      Line(a, b)
    }

    ghost function World(): LineStep
      reads this, filledQueue, emptyQueue
    {
      LineStep(State(), filledQueue.data, emptyQueue.data)
    }

    constructor (filledQueue: SafeQueue.SafeQueue<Log>, emptyQueue: SafeQueue.SafeQueue<Log>)
      ensures State() == NewLine() && this.filledQueue == filledQueue && this.emptyQueue == emptyQueue
    {
      a, b := [], Some([]);
      this.filledQueue, this.emptyQueue := filledQueue, emptyQueue;
    }

    method GetEmptyBuffer()
      modifies this`b, emptyQueue
      ensures (b, emptyQueue.data) == (Some(Standby(old(b), old(emptyQueue.data)).0), Standby(old(b), old(emptyQueue.data)).1)
    {
      if b.Some? {
        return;
      }
      var ok, buffer := emptyQueue.Pop();
      b := Some(if ok then buffer else []);
    }

    /** Swaps the buffers and hands the one that was written over to the queue. */
    method SwapAndHandOver()
      requires b.Some? && filledQueue != emptyQueue
      modifies this, filledQueue
      ensures a == old(b.value) && b == None && filledQueue.data == old(filledQueue.data) + [old(a)]
    {
      var full := a;
      a := b.value;
      b := None;
      filledQueue.Push(full);
    }

    method PushToQueue()
      requires filledQueue != emptyQueue
      modifies this, filledQueue, emptyQueue
      ensures World() == FlushLine(old(State()), old(filledQueue.data), old(emptyQueue.data))
    {
      GetEmptyBuffer();
      SwapAndHandOver();
    }

    /** The end of the line. */
    method Close()
      modifies filledQueue
      ensures filledQueue.data == old(filledQueue.data) + LastBuffers(State())
    {
      if a != [] {
        filledQueue.Push(a);
      }
      if b.Some? && b.value != [] {
        filledQueue.Push(b.value);
      }
    }

    method PushToBuffer(msg: Log)
      requires filledQueue != emptyQueue
      modifies this, filledQueue, emptyQueue
      ensures World() == LogLine(old(State()), old(filledQueue.data), old(emptyQueue.data), msg)
    {
      if HasRoom(a, |msg|) {
        a := a + msg;
      } else {
        GetEmptyBuffer();
        SwapAndHandOver();
        a := PushInto(a, msg);
      }
    }
  }

  class LoggerFile {
    var files: seq<Log>
    var open: bool
    var currDataSize: nat
    var fileSizeLimit: nat

    ghost function State(): LogFiles
      reads this
    {
      LogFiles(files, open, currDataSize, fileSizeLimit)
    }

    constructor ()
      ensures State() == LogFiles([], false, 0, 0)
    {
      files, open, currDataSize, fileSizeLimit := [], false, 0, 0;
    }

    /** Opens a new file; the system may refuse. */
    method CreateLogFile(ok: bool) returns (created: bool)
      modifies this
      ensures created == ok && open == ok && fileSizeLimit == old(fileSizeLimit)
      ensures ok ==> files == old(files) + [[]] && currDataSize == 0
      ensures !ok ==> files == old(files) && currDataSize == old(currDataSize)
    {
      open := ok;
      if ok {
        files := files + [[]];
        currDataSize := 0;
      }
      created := ok;
    }

    /** The loop over the system's write; `writes` is how much each would take, and then it fails. */
    method WriteLoop(buffer: Log, writes: seq<nat>)
      requires files != []
      modifies this`files, this`currDataSize
      ensures var w := if open then Wrote(buffer, 0, writes) else [];
        && files == old(files)[|old(files)| - 1 := old(files)[|old(files)| - 1] + w]
        && currDataSize == old(currDataSize) + |w|
    {
      var curr, i := 0, 0;
      ghost var last := |files| - 1;
      ghost var all := Wrote(buffer, 0, writes);
      ghost var done: Log := [];
      ghost var was := files;
      assert files[last] + [] == files[last] && writes[0..] == writes;
      while open && i < |writes|
        invariant i <= |writes| && curr <= |buffer| && |files| == |old(files)|
        invariant open ==> done + Wrote(buffer, curr, writes[i..]) == all
        invariant !open ==> done == []
        invariant currDataSize == old(currDataSize) + |done|
        invariant files == was[last := was[last] + done]
      {
        var remain := |buffer| - curr;
        var sz := if writes[i] < remain then writes[i] else remain;
        assert writes[i..][0] == writes[i] && writes[i..][1..] == writes[i + 1..];
        if sz == 0 {
          break;
        }
        AppendTwice(was, last, done, buffer[..sz]);
        files := files[|files| - 1 := files[|files| - 1] + buffer[..sz]];
        curr := curr + sz;
        currDataSize := currDataSize + sz;
        i := i + 1;
        Joined(done, buffer[..sz], Wrote(buffer, curr, writes[i..]));
        done := done + buffer[..sz];
      }
      assert open ==> done == all;
    }

    /** Writes a buffer if it fits; the write of the system is taken to be complete. */
    method Archive(buffer: Log) returns (ok: bool)
      requires files != []
      modifies this
      ensures ok <==> old(currDataSize) + |buffer| <= old(fileSizeLimit)
      ensures ok == Fits(old(State()), buffer)
      ensures State() == if ok then WriteTo(old(State()), buffer) else old(State())
    {
      if currDataSize + |buffer| > fileSizeLimit {
        return false;
      }
      WriteLoop(buffer, [|buffer|]);
      assert Wrote(buffer, 0, [|buffer|]) == buffer;
      assert old(files)[|files| - 1] + [] == old(files)[|files| - 1];
      ok := true;
    }
  }

  lemma {:induction false} AppendTwice(files: seq<Log>, k: nat, a: Log, b: Log)
    requires k < |files|
    ensures var once := files[k := files[k] + a]; once[k := once[k] + b] == files[k := files[k] + (a + b)]
  {
    assert files[k] + a + b == files[k] + (a + b);
  }

  lemma {:induction false} Joined(a: Log, b: Log, c: Log)
    ensures a + (b + c) == a + b + c
  {
  }

  class Logger {
    var lines: map<Tid, LoggerLine>
    var threadIDs: set<Tid>
    const filledQueue: SafeQueue.SafeQueue<Log>
    const emptyQueue: SafeQueue.SafeQueue<Log>
    const file: LoggerFile
    const standbyMax: nat
    var fileSizeLimit: nat
    var timeout: bool

    ghost function Lines(): map<Tid, Line>
      reads this, lines.Values
    {
      map t | t in lines :: lines[t].State()
    }

    ghost function State(): Pipeline
      reads this, lines.Values, filledQueue, emptyQueue, file
    {
      Pipeline(Lines(), filledQueue.data, emptyQueue.data, file.State(), standbyMax, timeout)
    }

    ghost predicate Valid()
      reads this, lines.Values, filledQueue, emptyQueue, file
    {
      && filledQueue != emptyQueue
      && threadIDs == lines.Keys
      && file.files != [] && file.fileSizeLimit == fileSizeLimit
      && (forall t :: t in lines ==> lines[t].filledQueue == filledQueue && lines[t].emptyQueue == emptyQueue)
      && (forall t, u :: t in lines && u in lines && t != u ==> lines[t] != lines[u])
    }

    /** Construction and initialisation: the size limit is raised to the default if it is below it. */
    constructor (fileSize: nat, standbyMax: nat)
      ensures Valid() && State() == Start(fileSize, standbyMax)
      ensures fresh(filledQueue) && fresh(emptyQueue) && fresh(file)
    {
      lines, threadIDs := map[], {};
      filledQueue := new SafeQueue.SafeQueue();
      emptyQueue := new SafeQueue.SafeQueue();
      file := new LoggerFile();
      this.standbyMax := standbyMax;
      fileSizeLimit := if fileSize < DEFAULT_FILE_LIMIT then DEFAULT_FILE_LIMIT else fileSize;
      timeout := false;
      new;
      var created := file.CreateLogFile(true);
      file.fileSizeLimit := fileSizeLimit;
    }

    method FindLoggerLine(tid: Tid) returns (line: LoggerLine)
      requires Valid()
      modifies this`lines, this`threadIDs
      ensures Valid() && tid in lines && lines[tid] == line
      ensures lines.Keys == old(lines.Keys) + {tid}
      ensures forall t :: t in old(lines) ==> lines[t] == old(lines)[t]
      ensures tid !in old(lines) ==> fresh(line)
      ensures State() == old(State()).(lines := old(Lines())[tid := FindLine(old(State()), tid)])
    {
      if tid in lines {
        line := lines[tid];
        assert Lines() == old(Lines())[tid := old(Lines())[tid]];
      } else {
        line := new LoggerLine(filledQueue, emptyQueue);
        lines := lines[tid := line];
        threadIDs := threadIDs + {tid};
        assert Lines() == old(Lines())[tid := NewLine()];
      }
    }

    /** A message into a line that exists. */
    method LogInto(tid: Tid, msg: LogPipeline.Log)
      requires Valid() && tid in lines
      modifies lines.Values, filledQueue, emptyQueue
      ensures Valid()
      ensures State() == WithLine(old(State()), tid, LogLine(old(Lines())[tid], old(filledQueue.data), old(emptyQueue.data), msg))
    {
      hide LogLine;
      var line := lines[tid];
      line.PushToBuffer(msg);
      assert Lines() == old(Lines())[tid := line.State()];
    }

    /** A thread logs a message. */
    method Log(tid: Tid, msg: string)
      requires Valid()
      modifies this`lines, this`threadIDs, lines.Values, filledQueue, emptyQueue
      ensures Valid() && State() == LogStep(old(State()), tid, msg)
    {
      hide LogLine, FindLine;
      ghost var p := State();
      var line := FindLoggerLine(tid);
      LogInto(tid, Tagged(tid, msg));
      MapUpdatedTwice(p.lines, tid, FindLine(p, tid), line.State());
    }

    /** One line of the flush. */
    method FlushTid(tid: Tid)
      requires Valid() && tid in lines
      modifies lines.Values, filledQueue, emptyQueue
      ensures Valid()
      ensures State() == WithLine(old(State()), tid, FlushLine(old(Lines())[tid], old(filledQueue.data), old(emptyQueue.data)))
    {
      var line := lines[tid];
      line.PushToQueue();
      assert Lines() == old(Lines())[tid := line.State()];
    }

    /** If the timer has fired, every line hands its buffer over; the order of the threads is left open. */
    method TimeoutPushToFile() returns (ghost order: seq<Tid>)
      requires Valid()
      modifies this`timeout, lines.Values, filledQueue, emptyQueue
      ensures Valid() && State() == FlushStep(old(State()), order)
      ensures old(timeout) ==> forall t :: t in lines ==> t in order
    {
      order := [];
      if timeout {
        var todo := threadIDs;
        while todo != {}
          invariant Valid() && timeout && todo <= threadIDs
          invariant forall t :: t in threadIDs ==> t in todo || t in order
          invariant State() == FlushAll(old(State()), order)
          decreases todo
        {
          var tid :| tid in todo;
          FlushAllAppend(old(State()), order, tid);
          FlushTid(tid);
          order := order + [tid];
          todo := todo - {tid};
        }
        timeout := false;
      }
    }

    /** Writes a buffer out, rotating if it does not fit; false when no new file could be created. */
    method WriteOut(buffer: Log, createOk: bool) returns (written: bool)
      requires file.files != [] && file.fileSizeLimit == fileSizeLimit
      modifies file
      ensures file.State() == Archived(old(file.State()), buffer, fileSizeLimit, createOk)
      ensures written == (Fits(old(file.State()), buffer) || createOk)
      ensures file.files != [] && file.fileSizeLimit == fileSizeLimit
    {
      var res := file.Archive(buffer);
      if !res {
        var created := file.CreateLogFile(createOk);
        if !created {
          return false;
        }
        file.fileSizeLimit := fileSizeLimit;
        assert file.State() == Rotated(old(file.State()), fileSizeLimit);
        res := file.Archive(buffer);
      }
      written := true;
    }

    /** The archiver's turn. */
    method Archive(createOk: bool)
      requires Valid()
      modifies filledQueue, emptyQueue, file
      ensures Valid() && State() == ArchiveStep(old(State()), createOk)
    {
      hide Archived, Fits;
      var buffer: Log := [];
      var ok, popped := filledQueue.WaitAndPop();
      if ok {
        buffer := popped;
      }
      var written := WriteOut(buffer, createOk);
      assert Lines() == old(Lines());
      if !written {
        return;
      }
      buffer := [];
      var size := emptyQueue.Size();
      if size < standbyMax {
        emptyQueue.Push(buffer);
      }
      assert Lines() == old(Lines());
    }

    /** Forgetting a thread ends its line, which first hands over what it still holds. */
    method RemoveLoggerLine(tid: Tid)
      requires Valid()
      modifies this`lines, this`threadIDs, filledQueue
      ensures Valid() && State() == RemoveStep(old(State()), tid)
    {
      if tid in lines {
        lines[tid].Close();
      }
      hide LastBuffers;
      lines := lines - {tid};
      threadIDs := threadIDs - {tid};
      assert Lines() == old(Lines()) - {tid};
    }
  }

  lemma MapUpdatedTwice(m: map<Tid, Line>, t: Tid, v: Line, v': Line)
    ensures m[t := v][t := v'] == m[t := v']
  {
  }

  lemma {:induction false} FlushAllAppend(p: Pipeline, order: seq<Tid>, t: Tid)
    ensures FlushAll(p, order + [t]) == FlushAll(FlushAll(p, order), [t])
    ensures FlushAll(p, order).lines.Keys == p.lines.Keys
    ensures t in p.lines ==>
      (var q := FlushAll(p, order); FlushAll(q, [t]) == WithLine(q, t, FlushLine(q.lines[t], q.filled, q.pool)))
    decreases order
  {
    if order == [] {
      assert [] + [t] == [t] && [t][1..] == [];
    } else {
      assert (order + [t])[1..] == order[1..] + [t];
      var p1 := if order[0] in p.lines
        then WithLine(p, order[0], FlushLine(p.lines[order[0]], p.filled, p.pool)) else p;
      FlushAllAppend(p1, order[1..], t);
    }
  }
}
