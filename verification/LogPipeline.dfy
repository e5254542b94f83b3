/**
 The logging pipeline: each thread writes into a working buffer A with a standby buffer B,
 full buffers go to a shared queue, one archiver writes them to size-limited files and keeps
 a pool of emptied buffers.  Each operation is one atomic step on the whole pipeline.

 A logged byte carries the thread that logged it, so that "the bytes of t" can be read off any
 part of the pipeline.  A buffer is a value: its owner is unique at every moment.
 */
module LogPipeline {
  type Tid = nat
  datatype LogByte = LogByte(tid: Tid, ch: char)
  type Log = seq<LogByte>
  datatype Option<T> = None | Some(value: T)

  const CAPACITY: nat := 40960
  const DEFAULT_FILE_LIMIT: nat := 1048576

  datatype Line = Line(a: Log, b: Option<Log>)

  /** The files in creation order, the last one current; `open` is false after a file could not be created. */
  datatype LogFiles = LogFiles(files: seq<Log>, open: bool, currSize: nat, limit: nat)

  datatype Pipeline = Pipeline(
    lines: map<Tid, Line>, filled: seq<Log>, pool: seq<Log>, out: LogFiles, standbyMax: nat, timeout: bool)

  function Tagged(t: Tid, msg: string): (r: Log)
    ensures |r| == |msg|
  {
    seq(|msg|, i requires 0 <= i < |msg| => LogByte(t, msg[i]))
  }

  function Concat(bufs: seq<Log>): Log {
    if bufs == [] then [] else bufs[0] + Concat(bufs[1..])
  }

  /** The bytes of one thread, in order. */
  function Of(t: Tid, log: Log): string {
    if log == [] then []
    else (if log[0].tid == t then [log[0].ch] else []) + Of(t, log[1..])
  }

  // ---- one thread's line ----

  function NewLine(): Line { Line([], Some([])) }

  /** A buffer takes a message when it leaves at least one byte free. */
  predicate HasRoom(buffer: Log, len: nat) { CAPACITY - |buffer| > len }

  function PushInto(buffer: Log, msg: Log): Log { if HasRoom(buffer, |msg|) then buffer + msg else buffer }

  /** The standby buffer, else one from the pool, else a new one; and the pool after. */
  function Standby(b: Option<Log>, pool: seq<Log>): (Log, seq<Log>) {
    if b.Some? then (b.value, pool)
    else if pool != [] then (pool[0], pool[1..])
    else ([], pool)
  }

  datatype LineStep = LineStep(line: Line, filled: seq<Log>, pool: seq<Log>)

  function FlushLine(line: Line, filled: seq<Log>, pool: seq<Log>): LineStep {
    var (standby, pool') := Standby(line.b, pool);
    LineStep(Line(standby, None), filled + [line.a], pool')
  }

  function LogLine(line: Line, filled: seq<Log>, pool: seq<Log>, msg: Log): LineStep {
    if HasRoom(line.a, |msg|) then LineStep(Line(line.a + msg, line.b), filled, pool)
    else
      var step := FlushLine(line, filled, pool);
      step.(line := step.line.(a := PushInto(step.line.a, msg)))
  }

  // ---- the archiver ----

  function WriteTo(out: LogFiles, buffer: Log): LogFiles
    requires out.files != []
  {
    if out.open then
      var last := |out.files| - 1;
      out.(files := out.files[last := out.files[last] + buffer], currSize := out.currSize + |buffer|)
    else out
  }

  /**
   What the write loop puts into the file when the system takes only so much at each write: every
   write starts again at the front of the buffer.
   */
  function Wrote(buffer: Log, curr: nat, writes: seq<nat>): (r: Log)
    requires curr <= |buffer|
    ensures |r| <= |buffer| - curr
    decreases writes
  {
    if writes == [] then []
    else
      var remain := |buffer| - curr;
      var sz := if writes[0] < remain then writes[0] else remain;
      if sz == 0 then [] else buffer[..sz] + Wrote(buffer, curr + sz, writes[1..])
  }

  /** A text whose first letter is like no other. */
  function Marked(n: nat): (text: string)
    requires n > 0
    ensures |text| == n && text[0] == 'a' && forall i :: 0 < i < n ==> text[i] == 'b'
  {
    seq(n, i => if i == 0 then 'a' else 'b')
  }

  /** A first write that takes only a part: the bytes of the front stand again where the rest belongs. */
  lemma {:induction false} PartialWriteRepeats(buffer: Log, k: nat)
    requires 0 < k < |buffer| <= 2 * k
    ensures Wrote(buffer, 0, [k, |buffer|]) == buffer[..k] + buffer[..|buffer| - k]
  {
    var rest := [k, |buffer|][1..];
    assert rest == [|buffer|];
    assert Wrote(buffer, k, rest) == buffer[..|buffer| - k] + Wrote(buffer, |buffer|, rest[1..]);
    assert buffer[..|buffer| - k] + [] == buffer[..|buffer| - k];
  }

  /** Of any thread, every buffer of a length reaches the file whole exactly when the first write takes all of it. */
  lemma {:induction false} WholeBufferIff(t: Tid, n: nat, writes: seq<nat>)
    ensures (forall text: string :: |text| == n ==> Wrote(Tagged(t, text), 0, writes) == Tagged(t, text))
            <==> n == 0 || (writes != [] && writes[0] >= n)
  {
    if n == 0 {
      assert forall text: string :: |text| == 0 ==> Wrote(Tagged(t, text), 0, writes) == Tagged(t, text);
    } else if writes != [] && writes[0] >= n {
      forall text: string | |text| == n ensures Wrote(Tagged(t, text), 0, writes) == Tagged(t, text) {
        assert Wrote(Tagged(t, text), 0, writes) == Tagged(t, text)[..n] + [];
      }
    } else {
      var b := Tagged(t, Marked(n));
      MarkedIsTorn(t, n, writes);
      assert Wrote(b, 0, writes) != b;
    }
  }

  lemma {:induction false} MarkedIsTorn(t: Tid, n: nat, writes: seq<nat>)
    requires n > 0 && (writes == [] || writes[0] < n)
    ensures Wrote(Tagged(t, Marked(n)), 0, writes) != Tagged(t, Marked(n))
  {
    var b := Tagged(t, Marked(n));
    if writes != [] && writes[0] > 0 {
      var k := writes[0];
      var rest := Wrote(b, k, writes[1..]);
      assert rest != [] ==> rest[0] == b[0];
      assert rest != [] ==> Wrote(b, 0, writes)[k] == b[0];
    }
  }

  predicate Fits(out: LogFiles, buffer: Log) { out.currSize + |buffer| <= out.limit }

  function Rotated(out: LogFiles, limit: nat): LogFiles {
    LogFiles(out.files + [[]], true, 0, limit)
  }

  /** Writing one buffer, into a new file when the current one would grow past its limit. */
  function Archived(out: LogFiles, buffer: Log, limit: nat, createOk: bool): LogFiles
    requires out.files != []
  {
    if Fits(out, buffer) then WriteTo(out, buffer)
    else if !createOk then out.(open := false)
    else
      var next := Rotated(out, limit);
      if Fits(next, buffer) then WriteTo(next, buffer) else next
  }

  // ---- the steps ----

  datatype Event = Logs(t: Tid, msg: string) | TimesOut | Flushes(order: seq<Tid>) | Archives(createOk: bool) | Removes(t: Tid)

  function FindLine(p: Pipeline, t: Tid): Line { if t in p.lines then p.lines[t] else NewLine() }

  function WithLine(p: Pipeline, t: Tid, step: LineStep): Pipeline {
    p.(lines := p.lines[t := step.line], filled := step.filled, pool := step.pool)
  }

  function LogStep(p: Pipeline, t: Tid, msg: string): Pipeline {
    WithLine(p, t, LogLine(FindLine(p, t), p.filled, p.pool, Tagged(t, msg)))
  }

  function FlushAll(p: Pipeline, order: seq<Tid>): Pipeline
    decreases order
  {
    if order == [] then p
    else if order[0] !in p.lines then FlushAll(p, order[1..])
    else FlushAll(WithLine(p, order[0], FlushLine(p.lines[order[0]], p.filled, p.pool)), order[1..])
  }

  function FlushStep(p: Pipeline, order: seq<Tid>): Pipeline {
    if p.timeout then FlushAll(p, order).(timeout := false) else p
  }

  /** The buffer archived next: an empty one when the timed wait for the queue runs out. */
  function NextBuffer(p: Pipeline): Log { if p.filled == [] then [] else p.filled[0] }

  function ArchiveStep(p: Pipeline, createOk: bool): Pipeline
    requires p.out.files != []
  {
    var buffer := NextBuffer(p);
    var p1 := p.(filled := if p.filled == [] then [] else p.filled[1..],
                 out := Archived(p.out, buffer, p.out.limit, createOk));
    if !Fits(p.out, buffer) && !createOk then p1
    else p1.(pool := if |p.pool| < p.standbyMax then p.pool + [[]] else p.pool)
  }

  /** What a line that ends hands to the queue: its buffers, unless they are empty. */
  function LastBuffers(line: Line): seq<Log> {
    (if line.a != [] then [line.a] else []) + (if line.b.Some? && line.b.value != [] then [line.b.value] else [])
  }

  function RemoveStep(p: Pipeline, t: Tid): Pipeline {
    if t !in p.lines then p
    else p.(lines := p.lines - {t}, filled := p.filled + LastBuffers(p.lines[t]))
  }

  function Step(p: Pipeline, e: Event): Pipeline
    requires p.out.files != []
  {
    match e
    case Logs(t, msg) => LogStep(p, t, msg)
    case TimesOut => p.(timeout := true)
    case Flushes(order) => FlushStep(p, order)
    case Archives(createOk) => ArchiveStep(p, createOk)
    case Removes(t) => RemoveStep(p, t)
  }

  function Start(fileSize: nat, standbyMax: nat): Pipeline {
    var limit := if fileSize < DEFAULT_FILE_LIMIT then DEFAULT_FILE_LIMIT else fileSize;
    Pipeline(map[], [], [], LogFiles([[]], true, 0, limit), standbyMax, false)
  }

  // ---- what every step keeps ----

  predicate LineOk(t: Tid, line: Line) {
    && |line.a| < CAPACITY && (line.b.Some? ==> line.b.value == [])
    && forall i :: 0 <= i < |line.a| ==> line.a[i].tid == t
  }

  predicate FilesOk(out: LogFiles) {
    && out.files != [] && out.limit >= DEFAULT_FILE_LIMIT
    && out.currSize == |out.files[|out.files| - 1]|
    && forall i :: 0 <= i < |out.files| ==> |out.files[i]| <= out.limit
  }

  /**
   The pipeline invariant: standby and pooled buffers are empty, a working buffer holds only its
   thread's bytes and is never full, the pool keeps its bound, and every file its size limit.
   */
  predicate Inv(p: Pipeline) {
    && (forall t :: t in p.lines ==> LineOk(t, p.lines[t]))
    && (forall i :: 0 <= i < |p.filled| ==> |p.filled[i]| < CAPACITY)
    && (forall i :: 0 <= i < |p.pool| ==> p.pool[i] == [])
    && |p.pool| <= p.standbyMax
    && FilesOk(p.out)
  }

  /** At the start there is one empty file, and its limit is the larger of the size asked for and the default. */
  lemma StartInv(fileSize: nat, standbyMax: nat)
    ensures Inv(Start(fileSize, standbyMax))
    ensures var p := Start(fileSize, standbyMax);
      && p.out.files == [[]] && p.out.open && p.filled == [] && p.lines == map[]
      && p.out.limit >= fileSize && p.out.limit >= 1048576 && (p.out.limit == fileSize || p.out.limit == 1048576)
  {
  }

  // ---- the bytes of a thread ----

  lemma {:induction false} OfAppend(t: Tid, a: Log, b: Log)
    ensures Of(t, a + b) == Of(t, a) + Of(t, b)
    decreases a
  {
    if a == [] {
      assert a + b == b;
    } else {
      assert (a + b)[0] == a[0] && (a + b)[1..] == a[1..] + b;
      OfAppend(t, a[1..], b);
      Regroup(if a[0].tid == t then [a[0].ch] else [], Of(t, a[1..]), Of(t, b));
    }
  }

  lemma {:induction false} OfOthers(t: Tid, log: Log)
    requires forall i :: 0 <= i < |log| ==> log[i].tid != t
    ensures Of(t, log) == []
    decreases log
  {
    if log != [] { OfOthers(t, log[1..]); }
  }

  lemma {:induction false} OfTagged(t: Tid, u: Tid, msg: string)
    ensures Of(t, Tagged(u, msg)) == if t == u then msg else []
    decreases msg
  {
    var tagged := Tagged(u, msg);
    if msg == [] {
      assert tagged == [];
    } else {
      assert tagged[1..] == Tagged(u, msg[1..]);
      OfTagged(t, u, msg[1..]);
      assert [msg[0]] + msg[1..] == msg;
    }
  }

  lemma {:induction false} ConcatAppend(a: seq<Log>, b: seq<Log>)
    ensures Concat(a + b) == Concat(a) + Concat(b)
    decreases a
  {
    if a == [] {
      assert a + b == b;
    } else {
      assert (a + b)[1..] == a[1..] + b;
      ConcatAppend(a[1..], b);
    }
  }

  lemma {:induction false} ConcatOne(b: Log)
    ensures Concat([b]) == b
  {
    assert [b][1..] == [];
  }

  /** Everything that has left the working buffers, in the order it reaches or will reach the files. */
  function Outflow(p: Pipeline): Log { Concat(p.out.files) + Concat(p.filled) }

  function Working(p: Pipeline, t: Tid): Log { if t in p.lines then p.lines[t].a else [] }

  /** The bytes of a thread in the files, then in the queue, then in its working buffer. */
  function Kept(p: Pipeline, t: Tid): string { Of(t, Outflow(p)) + Of(t, Working(p, t)) }

  /** What an event adds to the history of a thread: messages that cannot fit an empty buffer are dropped. */
  function Said(e: Event, t: Tid): string {
    if e.Logs? && e.t == t && |e.msg| < CAPACITY then e.msg else []
  }

  lemma {:induction false} OutflowGrows(p: Pipeline, filled: seq<Log>, more: seq<Log>)
    requires filled == p.filled + more
    ensures Concat(p.out.files) + Concat(filled) == Outflow(p) + Concat(more)
  {
    ConcatAppend(p.filled, more);
  }

  // ---- logging ----

  lemma {:induction false} LogKeepsInv(p: Pipeline, u: Tid, msg: string)
    requires Inv(p)
    ensures var p' := LogStep(p, u, msg);
      Inv(p') && p'.out == p.out && p'.lines.Keys == p.lines.Keys + {u}
  {
    hide FilesOk;
  }

  lemma {:induction false} LogIntoRoom(p: Pipeline, u: Tid, msg: string, t: Tid)
    requires Inv(p) && HasRoom(FindLine(p, u).a, |msg|)
    ensures Kept(LogStep(p, u, msg), t) == Kept(p, t) + Said(Logs(u, msg), t)
  {
    hide Of, Concat, FilesOk;
    var a := FindLine(p, u).a;
    OfTagged(t, u, msg);
    OfAppend(t, a, Tagged(u, msg));
    if t == u {
      assert Working(p, t) == a;
      Regroup(Of(t, Outflow(p)), Of(t, a), msg);
    } else {
      assert Kept(p, t) + [] == Kept(p, t);
    }
  }

  lemma {:induction false} LogAfterSwap(p: Pipeline, u: Tid, msg: string, t: Tid)
    requires Inv(p) && !HasRoom(FindLine(p, u).a, |msg|)
    ensures Kept(LogStep(p, u, msg), t) == Kept(p, t) + Said(Logs(u, msg), t)
  {
    hide Of, Concat, FilesOk;
    var a, p' := FindLine(p, u).a, LogStep(p, u, msg);
    OfTagged(t, u, msg);
    OutflowGrows(p, p.filled + [a], [a]);
    ConcatOne(a);
    OfAppend(t, Outflow(p), a);
    assert [] + Tagged(u, msg) == Tagged(u, msg);
    if t == u {
      assert Working(p, t) == a;
      assert Working(p', t) == if |msg| < CAPACITY then Tagged(u, msg) else [];
      OfOthers(t, []);
    } else {
      OfOthers(t, a);
      assert Of(t, Outflow(p)) + [] == Of(t, Outflow(p));
    }
    assert Kept(p, t) + [] == Kept(p, t);
  }

  lemma {:induction false} LogKeeps(p: Pipeline, u: Tid, msg: string, t: Tid)
    requires Inv(p)
    ensures Inv(LogStep(p, u, msg)) && Kept(LogStep(p, u, msg), t) == Kept(p, t) + Said(Logs(u, msg), t)
  {
    LogKeepsInv(p, u, msg);
    if HasRoom(FindLine(p, u).a, |msg|) {
      LogIntoRoom(p, u, msg, t);
    } else {
      LogAfterSwap(p, u, msg, t);
    }
  }

  lemma Regroup(a: string, b: string, c: string)
    ensures a + (b + c) == a + b + c
  {
  }

  // ---- flushing ----

  lemma {:induction false} FlushOneKeeps(p: Pipeline, u: Tid, t: Tid)
    requires Inv(p) && u in p.lines
    ensures var p' := WithLine(p, u, FlushLine(p.lines[u], p.filled, p.pool));
      && Inv(p') && p'.out == p.out && p'.timeout == p.timeout && p'.lines.Keys == p.lines.Keys
      && p'.lines[u].a == [] && (forall v :: v in p.lines && v != u ==> p'.lines[v] == p.lines[v])
      && Kept(p', t) == Kept(p, t)
  {
    hide Of, Concat;
    var a := p.lines[u].a;
    OutflowGrows(p, p.filled + [a], [a]);
    ConcatOne(a);
    OfAppend(t, Outflow(p), a);
    assert Of(t, []) == [] by { OfOthers(t, []); }
    if t != u { OfOthers(t, a); }
    assert Of(t, Outflow(p)) + Of(t, a) + [] == Of(t, Outflow(p)) + Of(t, a);
  }

  lemma {:induction false} FlushAllKeeps(p: Pipeline, order: seq<Tid>, t: Tid)
    requires Inv(p)
    ensures var p' := FlushAll(p, order);
      && Inv(p') && p'.out == p.out && p'.lines.Keys == p.lines.Keys && Kept(p', t) == Kept(p, t)
      && (t in p.lines && (p.lines[t].a == [] || t in order) ==> p'.lines[t].a == [])
    decreases order
  {
    hide Kept, Inv, FlushLine;
    if order != [] && order[0] in p.lines {
      FlushOneKeeps(p, order[0], t);
      FlushAllKeeps(WithLine(p, order[0], FlushLine(p.lines[order[0]], p.filled, p.pool)), order[1..], t);
    } else if order != [] {
      FlushAllKeeps(p, order[1..], t);
    }
  }

  // ---- archiving ----

  lemma {:induction false} WriteToAppends(out: LogFiles, buffer: Log)
    requires out.open && out.files != []
    ensures Concat(WriteTo(out, buffer).files) == Concat(out.files) + buffer
  {
    var last := |out.files| - 1;
    var front := out.files[..last];
    assert out.files == front + [out.files[last]];
    assert WriteTo(out, buffer).files == front + [out.files[last] + buffer];
    ConcatAppend(front, [out.files[last]]);
    ConcatAppend(front, [out.files[last] + buffer]);
    ConcatOne(out.files[last]);
    ConcatOne(out.files[last] + buffer);
  }

  /** The bytes in the current file. */
  function LastSize(out: LogFiles): nat { if out.files == [] then 0 else |out.files[|out.files| - 1]| }

  /** The write after a rotation always succeeds, and the new file takes exactly the buffer. */
  lemma {:induction false} RetrySucceeds(out: LogFiles, buffer: Log)
    requires FilesOk(out) && |buffer| < CAPACITY && LastSize(out) + |buffer| > out.limit
    ensures Fits(Rotated(out, out.limit), buffer)
    ensures Archived(out, buffer, out.limit, true).files == out.files + [buffer]
  {
    assert [] + buffer == buffer;
    var next := Rotated(out, out.limit);
    assert next.files[|out.files| := buffer] == out.files + [buffer];
  }

  /** The buffer reaches a file: the current one is open and has room, or a new one is created for it. */
  predicate Survives(out: LogFiles, buffer: Log, createOk: bool) {
    if LastSize(out) + |buffer| <= out.limit then out.open else createOk
  }

  /** Files stay within their limit and concatenate to what was drained into them, in order. */
  lemma {:induction false} ArchivedKeeps(out: LogFiles, buffer: Log, createOk: bool)
    requires FilesOk(out) && |buffer| < CAPACITY
    ensures var out' := Archived(out, buffer, out.limit, createOk);
      && FilesOk(out') && out'.limit == out.limit
      && Concat(out'.files) == (if Survives(out, buffer, createOk) then Concat(out.files) + buffer else Concat(out.files))
      && (out.open && createOk ==> out'.open)
  {
    hide Concat;
    if Fits(out, buffer) {
      if out.open { WriteToAppends(out, buffer); }
    } else if createOk {
      RetrySucceeds(out, buffer);
      ConcatAppend(out.files, [buffer]);
      ConcatOne(buffer);
    }
  }

  /**
   The archiver's turn, in numbers: a buffer goes behind the current file's bytes if the file stays
   within its limit with it, and into a new file of its own otherwise; a file that was closed takes
   nothing, and without a new file the buffer goes nowhere.
   */
  lemma {:induction false} ArchiveWrites(p: Pipeline, createOk: bool)
    requires Inv(p)
    ensures var p' := ArchiveStep(p, createOk);
      var files, last := p.out.files, |p.out.files| - 1;
      var buffer := if p.filled == [] then [] else p.filled[0];
      && p'.filled == (if p.filled == [] then [] else p.filled[1..]) && p'.out.limit == p.out.limit
      && p'.lines == p.lines && p'.timeout == p.timeout
      && if |files[last]| + |buffer| <= p.out.limit then
           p'.out.open == p.out.open && p'.out.files == if p.out.open then files[last := files[last] + buffer] else files
         else
           p'.out.open == createOk && p'.out.files == if createOk then files + [buffer] else files
    ensures var p' := ArchiveStep(p, createOk);
      var kept := |p.out.files[|p.out.files| - 1]| + |NextBuffer(p)| <= p.out.limit || createOk;
      |p'.pool| == if kept && |p.pool| < p.standbyMax then |p.pool| + 1 else |p.pool|
  {
    hide LineOk;
    if LastSize(p.out) + |NextBuffer(p)| > p.out.limit { RetrySucceeds(p.out, NextBuffer(p)); }
  }

  /** A new file is made exactly when the buffer would take the current one past its limit, and one can be created. */
  lemma {:induction false} RotatesIff(p: Pipeline, createOk: bool)
    requires Inv(p)
    ensures var last, buffer := p.out.files[|p.out.files| - 1], if p.filled == [] then [] else p.filled[0];
      |ArchiveStep(p, createOk).out.files| == |p.out.files| <==> |last| + |buffer| <= p.out.limit || !createOk
  {
    hide ArchiveStep, LineOk;
    ArchiveWrites(p, createOk);
  }

  lemma {:induction false} ArchiveKeeps(p: Pipeline, createOk: bool)
    requires Inv(p)
    ensures var p' := ArchiveStep(p, createOk);
      && Inv(p') && p'.lines == p.lines && p'.out.limit == p.out.limit
      && Outflow(p') == (if Survives(p.out, NextBuffer(p), createOk) then Outflow(p)
                         else Concat(p.out.files) + Concat(p'.filled))
      && Outflow(p) == Concat(p.out.files) + NextBuffer(p) + Concat(p'.filled)
      && (p.out.open && createOk ==> p'.out.open)
  {
    hide Archived, FilesOk, Concat, LineOk, Fits, Survives;
    assert p.out.files != [] by { FilesExist(p.out); }
    ArchivedKeeps(p.out, NextBuffer(p), createOk);
    DrainFirst(Concat(p.out.files), p.filled);
  }

  lemma FilesExist(out: LogFiles)
    requires FilesOk(out)
    ensures out.files != []
  {
  }

  lemma InvFiles(p: Pipeline)
    requires Inv(p)
    ensures p.out.files != []
  {
  }

  lemma {:induction false} DrainFirst(files: Log, filled: seq<Log>)
    ensures filled == [] ==> files + [] + Concat([]) == files + Concat(filled)
    ensures filled != [] ==> files + filled[0] + Concat(filled[1..]) == files + Concat(filled)
  {
  }

  // ---- the end of a line ----

  lemma {:induction false} RemoveKeeps(p: Pipeline, u: Tid, t: Tid)
    requires Inv(p)
    ensures Inv(RemoveStep(p, u)) && Kept(RemoveStep(p, u), t) == Kept(p, t)
  {
    hide Of, Concat;
    if u in p.lines {
      var a := p.lines[u].a;
      var last := LastBuffers(p.lines[u]);
      assert Of(t, []) == [] by { OfOthers(t, []); }
      OutflowGrows(p, p.filled + last, last);
      if a != [] {
        assert last == [a];
        ConcatOne(a);
      } else {
        assert last == [] && p.filled + last == p.filled;
      }
      OfAppend(t, Outflow(p), a);
      if t != u { OfOthers(t, a); }
      assert Of(t, Outflow(p)) + Of(t, a) + [] == Of(t, Outflow(p)) + Of(t, a);
    }
  }

  // ---- runs ----

  function Run(p: Pipeline, events: seq<Event>): Pipeline
    requires Inv(p)
    decreases events
  {
    if events == [] then p
    else
      StepKeeps(p, events[0], 0);
      Run(Step(p, events[0]), events[1..])
  }

  /** The step takes a buffer with bytes of the thread, and it reaches no file. */
  predicate Loses(p: Pipeline, e: Event, t: Tid) {
    e.Archives? && !Survives(p.out, NextBuffer(p), e.createOk) && Of(t, NextBuffer(p)) != []
  }

  /** No step of the run loses bytes of the thread. */
  predicate Lossless(p: Pipeline, events: seq<Event>, t: Tid)
    requires Inv(p)
    decreases events
  {
    events == []
    || (!Loses(p, events[0], t) && (StepKeeps(p, events[0], t); Lossless(Step(p, events[0]), events[1..], t)))
  }

  /** Everything a thread said in a run, as far as single messages fit a buffer. */
  function AllSaid(events: seq<Event>, t: Tid): string {
    if events == [] then [] else Said(events[0], t) + AllSaid(events[1..], t)
  }

  /** The archiver's turn keeps a thread's bytes, but for those in a buffer that reaches no file. */
  lemma {:induction false} ArchiveKept(p: Pipeline, createOk: bool, t: Tid)
    requires Inv(p)
    ensures var p' := ArchiveStep(p, createOk);
      Inv(p') && if Loses(p, Archives(createOk), t) then |Kept(p', t)| < |Kept(p, t)| else Kept(p', t) == Kept(p, t)
  {
    InvFiles(p);
    hide Inv, ArchiveStep, Of, Concat, Survives;
    ArchiveKeeps(p, createOk);
    var p' := ArchiveStep(p, createOk);
    var files, buffer, rest := Concat(p.out.files), NextBuffer(p), Concat(p'.filled);
    OfAppend(t, files + buffer, rest);
    OfAppend(t, files, buffer);
    OfAppend(t, files, rest);
    if Of(t, buffer) == [] { assert Of(t, files) + [] == Of(t, files); }
  }

  lemma {:induction false} StepKeeps(p: Pipeline, e: Event, t: Tid)
    requires Inv(p)
    ensures Inv(Step(p, e)) && |Kept(Step(p, e), t)| <= |Kept(p, t) + Said(e, t)|
    ensures Kept(Step(p, e), t) == Kept(p, t) + Said(e, t) <==> !Loses(p, e, t)
  {
    hide Kept, LineOk, Survives, Of;
    assert Kept(p, t) + [] == Kept(p, t);
    match e {
      case Logs(u, msg) => LogKeeps(p, u, msg, t);
      case TimesOut => TimeoutKeeps(p, t);
      case Flushes(order) =>
        FlushAllKeeps(p, order, t);
        TimeoutKeeps(FlushAll(p, order), t);
      case Archives(createOk) => ArchiveKept(p, createOk, t);
      case Removes(u) => RemoveKeeps(p, u, t);
    }
  }

  lemma {:induction false} TimeoutKeeps(p: Pipeline, t: Tid)
    requires Inv(p)
    ensures forall b :: Inv(p.(timeout := b)) && Kept(p.(timeout := b), t) == Kept(p, t)
  {
    hide LineOk, FilesOk;
  }

  /** Bytes never come from nowhere, and what a step loses stays lost. */
  lemma {:induction false} RunKept(p: Pipeline, events: seq<Event>, t: Tid)
    requires Inv(p)
    ensures Inv(Run(p, events)) && |Kept(Run(p, events), t)| <= |Kept(p, t)| + |AllSaid(events, t)|
    ensures !Lossless(p, events, t) ==> |Kept(Run(p, events), t)| < |Kept(p, t)| + |AllSaid(events, t)|
    ensures Lossless(p, events, t) ==> Kept(Run(p, events), t) == Kept(p, t) + AllSaid(events, t)
    decreases events
  {
    InvFiles(p);
    hide Inv, Kept, Step, Said, Loses;
    if events != [] {
      StepKeeps(p, events[0], t);
      if Loses(p, events[0], t) { StepShrinks(p, events[0], t); }
      RunKept(Step(p, events[0]), events[1..], t);
      Regroup(Kept(p, t), Said(events[0], t), AllSaid(events[1..], t));
    } else {
      assert Kept(p, t) + [] == Kept(p, t);
    }
  }

  lemma {:induction false} StepShrinks(p: Pipeline, e: Event, t: Tid)
    requires Inv(p) && Loses(p, e, t)
    ensures |Kept(Step(p, e), t)| < |Kept(p, t)| + |Said(e, t)|
  {
    EventIs(p, e, t);
    hide Inv, Kept, Loses;
    ArchiveKept(p, e.createOk, t);
  }

  lemma EventIs(p: Pipeline, e: Event, t: Tid)
    requires Inv(p) && Loses(p, e, t)
    ensures e.Archives? && Step(p, e) == ArchiveStep(p, e.createOk)
  {
  }

  // ---- how the files are filled ----

  /** The buffers a run archives, in order. */
  function Drained(p: Pipeline, events: seq<Event>): seq<Log>
    requires Inv(p)
    decreases events
  {
    if events == [] then []
    else
      StepKeeps(p, events[0], 0);
      (if events[0].Archives? then [if p.filled == [] then [] else p.filled[0]] else []) + Drained(Step(p, events[0]), events[1..])
  }

  function Flat(groups: seq<seq<Log>>): seq<Log> {
    if groups == [] then [] else groups[0] + Flat(groups[1..])
  }

  /** Each file holds a run of buffers within the limit, and none could have taken the next file's first one too. */
  ghost predicate NextFit(files: seq<Log>, groups: seq<seq<Log>>, limit: nat) {
    && |files| == |groups|
    && (forall i :: 0 <= i < |files| ==> files[i] == Concat(groups[i]) && |files[i]| <= limit)
    && (forall i :: 0 < i < |files| ==> groups[i] != [] && |files[i - 1]| + |groups[i][0]| > limit)
  }

  lemma {:induction false} FlatAppend(a: seq<seq<Log>>, b: seq<seq<Log>>)
    ensures Flat(a + b) == Flat(a) + Flat(b)
    decreases a
  {
    if a == [] {
      assert a + b == b;
    } else {
      assert (a + b)[1..] == a[1..] + b;
      FlatAppend(a[1..], b);
    }
  }

  lemma FlatOne(group: seq<Log>)
    ensures Flat([group]) == group
  {
    assert [group][1..] == [];
  }

  lemma {:induction false} FlatLast(groups: seq<seq<Log>>, buffer: Log)
    requires groups != []
    ensures var last := |groups| - 1; Flat(groups[last := groups[last] + [buffer]]) == Flat(groups) + [buffer]
  {
    hide Flat;
    var last := |groups| - 1;
    var front, group := groups[..last], groups[last];
    assert groups == front + [group] && groups[last := group + [buffer]] == front + [group + [buffer]];
    FlatAppend(front, [group]);
    FlatAppend(front, [group + [buffer]]);
    FlatOne(group);
    FlatOne(group + [buffer]);
    GlueBuffers(Flat(front), group, [buffer]);
  }

  lemma {:induction false} PackInto(files: seq<Log>, groups: seq<seq<Log>>, limit: nat, buffer: Log)
    requires NextFit(files, groups, limit) && files != [] && |files[|files| - 1]| + |buffer| <= limit
    ensures var last := |files| - 1;
      NextFit(files[last := files[last] + buffer], groups[last := groups[last] + [buffer]], limit)
  {
    hide Concat;
    var last := |files| - 1;
    ConcatAppend(groups[last], [buffer]);
    ConcatOne(buffer);
    assert last > 0 ==> (groups[last] + [buffer])[0] == groups[last][0];
  }

  lemma {:induction false} PackNew(files: seq<Log>, groups: seq<seq<Log>>, limit: nat, buffer: Log)
    requires NextFit(files, groups, limit) && files != [] && |files[|files| - 1]| + |buffer| > limit >= |buffer|
    ensures NextFit(files + [buffer], groups + [[buffer]], limit)
  {
    hide Concat;
    ConcatOne(buffer);
  }

  lemma {:induction false} PackOne(files: seq<Log>, groups: seq<seq<Log>>, limit: nat, buffer: Log) returns (groups': seq<seq<Log>>)
    requires NextFit(files, groups, limit) && files != [] && |buffer| <= limit
    ensures var last := |files| - 1;
      NextFit(if |files[last]| + |buffer| <= limit then files[last := files[last] + buffer] else files + [buffer], groups', limit)
    ensures Flat(groups') == Flat(groups) + [buffer]
  {
    var last := |files| - 1;
    assert |groups| == |files|;
    hide NextFit, Flat;
    if |files[last]| + |buffer| <= limit {
      groups' := groups[last := groups[last] + [buffer]];
      PackInto(files, groups, limit, buffer);
      FlatLast(groups, buffer);
    } else {
      groups' := groups + [[buffer]];
      PackNew(files, groups, limit, buffer);
      FlatAppend(groups, [[buffer]]);
      FlatOne([buffer]);
    }
  }

  lemma {:induction false} StepPacks(p: Pipeline, e: Event, groups: seq<seq<Log>>) returns (groups': seq<seq<Log>>)
    requires Inv(p) && p.out.open && (e.Archives? ==> e.createOk) && NextFit(p.out.files, groups, p.out.limit)
    ensures var p' := Step(p, e);
      && p'.out.open && p'.out.limit == p.out.limit && NextFit(p'.out.files, groups', p'.out.limit)
      && Flat(groups') == Flat(groups) + if e.Archives? then [if p.filled == [] then [] else p.filled[0]] else []
  {
    InvFiles(p);
    hide Inv, ArchiveStep, NextFit, FlushLine, LogLine;
    groups' := groups;
    assert Flat(groups) + [] == Flat(groups);
    match e {
      case Archives(createOk) =>
        ArchiveWrites(p, createOk);
        BufferFits(p);
        groups' := PackOne(p.out.files, groups, p.out.limit, if p.filled == [] then [] else p.filled[0]);
      case Flushes(order) => FlushAllKeeps(p, order, 0);
      case _ =>
    }
  }

  lemma BufferFits(p: Pipeline)
    requires Inv(p)
    ensures p.filled != [] ==> |p.filled[0]| <= p.out.limit
  {
  }

  lemma CreatedRest(events: seq<Event>)
    requires FilesCreated(events) && events != []
    ensures FilesCreated(events[1..]) && (events[0].Archives? ==> events[0].createOk)
  {
  }

  lemma GlueBuffers(a: seq<Log>, b: seq<Log>, c: seq<Log>)
    ensures a + b + c == a + (b + c) && a + [] == a
  {
  }

  lemma {:induction false} RunPacks(p: Pipeline, events: seq<Event>, groups: seq<seq<Log>>) returns (groups': seq<seq<Log>>)
    requires Inv(p) && p.out.open && FilesCreated(events) && NextFit(p.out.files, groups, p.out.limit)
    ensures var p' := Run(p, events);
      && p'.out.limit == p.out.limit && NextFit(p'.out.files, groups', p'.out.limit)
      && Flat(groups') == Flat(groups) + Drained(p, events)
    decreases events
  {
    InvFiles(p);
    hide Inv, Step, NextFit, Kept, Flat, FilesCreated, Loses, Said;
    GlueBuffers(Flat(groups), [], []);
    if events == [] {
      groups' := groups;
    } else {
      StepKeeps(p, events[0], 0);
      CreatedRest(events);
      var next := StepPacks(p, events[0], groups);
      groups' := RunPacks(Step(p, events[0]), events[1..], next);
      GlueBuffers(Flat(groups), if events[0].Archives? then [if p.filled == [] then [] else p.filled[0]] else [],
                  Drained(Step(p, events[0]), events[1..]));
    }
  }

  /**
   From the start, while files can be created, the files are the drained buffers packed in order:
   every file is a run of them within the limit, and each later file was begun only because its first
   buffer would have taken the one before it past the limit.
   */
  lemma {:induction false} FilesArePacked(fileSize: nat, standbyMax: nat, events: seq<Event>) returns (groups: seq<seq<Log>>)
    requires FilesCreated(events)
    ensures Inv(Start(fileSize, standbyMax))
    ensures var p := Start(fileSize, standbyMax); var p' := Run(p, events);
      NextFit(p'.out.files, groups, p.out.limit) && Flat(groups) == Drained(p, events)
  {
    hide Run, Inv, Drained;
    var p := Start(fileSize, standbyMax);
    StartInv(fileSize, standbyMax);
    ConcatNothing();
    assert NextFit(p.out.files, [[]], p.out.limit);
    groups := RunPacks(p, events, [[]]);
    FlatOne([]);
    assert [] + Drained(p, events) == Drained(p, events);
  }

  // ---- how a working buffer is filled ----

  /**
   Logging, in numbers: a message goes behind the bytes of the working buffer if both are shorter
   than a buffer together, and nothing is handed over; otherwise exactly the working buffer is handed
   over, and the message starts the next one if it is shorter than a buffer itself.
   */
  lemma {:induction false} LogFills(p: Pipeline, t: Tid, msg: string)
    requires Inv(p)
    ensures var p' := LogStep(p, t, msg);
      var a := if t in p.lines then p.lines[t].a else [];
      && t in p'.lines
      && if |a| + |msg| < 40960 then p'.lines[t].a == a + Tagged(t, msg) && p'.filled == p.filled
         else p'.lines[t].a == (if |msg| < 40960 then Tagged(t, msg) else []) && p'.filled == p.filled + [a]
    ensures var swaps := (if t in p.lines then |p.lines[t].a| else 0) + |msg| >= 40960;
      |LogStep(p, t, msg).pool|
      == if swaps && t in p.lines && p.lines[t].b.None? && |p.pool| > 0 then |p.pool| - 1 else |p.pool|
  {
    hide FilesOk;
    assert [] + Tagged(t, msg) == Tagged(t, msg);
  }

  /**
   A line that is flushed hands over its working buffer, even an empty one, and goes on with its
   standby buffer, which it then has no more, else with a pooled one, else with a new one.
   */
  lemma {:induction false} FlushHands(p: Pipeline, t: Tid)
    requires Inv(p) && t in p.lines
    ensures var line, p' := p.lines[t], WithLine(p, t, FlushLine(p.lines[t], p.filled, p.pool));
      && p'.filled == p.filled + [line.a] && p'.lines[t] == Line([], None)
      && |p'.pool| == if line.b.None? && |p.pool| > 0 then |p.pool| - 1 else |p.pool|
  {
    hide FilesOk;
  }

  /** Without a timeout a flush does nothing; after one it empties the working buffer of every line it visits, once. */
  lemma {:induction false} FlushesOnTimeout(p: Pipeline, order: seq<Tid>, t: Tid)
    requires Inv(p)
    ensures !p.timeout ==> Step(p, Flushes(order)) == p
    ensures t in p.lines && t in order ==>
      var p' := Step(Step(p, TimesOut), Flushes(order));
      t in p'.lines && p'.lines[t].a == [] && !p'.timeout
  {
    hide FlushAll, Kept;
    TimeoutKeeps(p, t);
    FlushAllKeeps(p.(timeout := true), order, t);
  }

  /** A line that ends hands over its working buffer if there is anything in it. */
  lemma {:induction false} RemoveHands(p: Pipeline, t: Tid)
    requires Inv(p) && t in p.lines
    ensures var a, p' := p.lines[t].a, RemoveStep(p, t);
      && t !in p'.lines && p'.pool == p.pool && p'.out == p.out
      && p'.filled == if |a| > 0 then p.filled + [a] else p.filled
  {
    hide FilesOk;
    var a := p.lines[t].a;
    assert p.filled + [] == p.filled && [a] + [] == [a];
  }

  /**
   Nothing is lost, duplicated or reordered: after any interleaving of logging, timeouts, flushes,
   archiving and ending lines, the bytes of a thread in the files, then in the queue, then in its
   working buffer are what they were, followed by what the thread has said, if and only if no buffer
   with bytes of it was archived while it fitted a file that was not open, or while it did not fit
   and no new file could be created.
   */
  lemma {:induction false} NothingLost(p: Pipeline, events: seq<Event>, t: Tid)
    requires Inv(p)
    ensures Inv(Run(p, events))
    ensures Kept(Run(p, events), t) == Kept(p, t) + AllSaid(events, t) <==> Lossless(p, events, t)
  {
    hide Inv, Kept, Lossless, Run;
    RunKept(p, events, t);
  }

  /** Every rotation of the run finds its new file. */
  predicate FilesCreated(events: seq<Event>) {
    forall i :: 0 <= i < |events| && events[i].Archives? ==> events[i].createOk
  }

  /** A file that is open stays so while new ones can be created, and then no thread loses anything. */
  lemma {:induction false} CreatedIsLossless(p: Pipeline, events: seq<Event>, t: Tid)
    requires Inv(p) && p.out.open && FilesCreated(events)
    ensures Lossless(p, events, t)
    decreases events
  {
    InvFiles(p);
    hide Inv, Of;
    if events != [] {
      StepKeeps(p, events[0], t);
      StaysOpen(p, events[0], t);
      CreatedIsLossless(Step(p, events[0]), events[1..], t);
    }
  }

  lemma {:induction false} StaysOpen(p: Pipeline, e: Event, t: Tid)
    requires Inv(p) && p.out.open && (e.Archives? ==> e.createOk)
    ensures Step(p, e).out.open
  {
    hide LineOk, FilesOk, Kept;
    match e {
      case Archives(createOk) => ArchiveKeeps(p, createOk);
      case Flushes(order) => FlushAllKeeps(p, order, t);
      case _ =>
    }
  }

  /** Everything a thread logged, whatever its length. */
  function AllLogged(events: seq<Event>, t: Tid): string {
    if events == [] then []
    else (if events[0].Logs? && events[0].t == t then events[0].msg else []) + AllLogged(events[1..], t)
  }

  predicate AllShort(events: seq<Event>, t: Tid) {
    forall i :: 0 <= i < |events| && events[i].Logs? && events[i].t == t ==> |events[i].msg| < CAPACITY
  }

  /** A thread's log is complete exactly when each of its messages is shorter than a buffer and no buffer of it is lost. */
  lemma {:induction false} CompleteIff(p: Pipeline, events: seq<Event>, t: Tid)
    requires Inv(p)
    ensures Kept(Run(p, events), t) == Kept(p, t) + AllLogged(events, t)
            <==> AllShort(events, t) && Lossless(p, events, t)
  {
    hide Inv, Kept, Lossless, Run, AllShort;
    RunKept(p, events, t);
    SaidLength(events, t);
  }

  lemma {:induction false} SaidLength(events: seq<Event>, t: Tid)
    ensures |AllSaid(events, t)| <= |AllLogged(events, t)|
    ensures if AllShort(events, t) then AllSaid(events, t) == AllLogged(events, t)
            else |AllSaid(events, t)| < |AllLogged(events, t)|
    decreases events
  {
    if events != [] {
      SaidLength(events[1..], t);
      assert forall i :: 1 <= i < |events| ==> events[i] == events[1..][i - 1];
    }
  }

  /** When a file cannot be created, exactly the buffer at hand is lost: no file gains a byte and the rest stays queued. */
  lemma {:induction false} FailedRotationLoses(p: Pipeline)
    requires Inv(p) && LastSize(p.out) + |NextBuffer(p)| > p.out.limit
    ensures p.filled != [] && |p.filled[0]| > 0
    ensures var p' := ArchiveStep(p, false);
      && p'.out.files == p.out.files && p'.filled == p.filled[1..] && p'.lines == p.lines && p'.pool == p.pool
      && Outflow(p) == Concat(p.out.files) + p.filled[0] + Concat(p.filled[1..])
      && Outflow(p') == Concat(p.out.files) + Concat(p.filled[1..])
  {
  }

  /** After it every buffer that the old file has room for is lost as well, although the write reports success. */
  lemma {:induction false} ClosedFileLoses(p: Pipeline, createOk: bool)
    requires Inv(p) && !p.out.open && LastSize(p.out) + |NextBuffer(p)| <= p.out.limit
    ensures var p' := ArchiveStep(p, createOk);
      p'.out == p.out && p'.filled == (if p.filled == [] then [] else p.filled[1..])
  {
  }

  /** After a timeout's flush and enough archiving, everything a thread said is in the files. */
  lemma {:induction false} FlushedThenArchived(p: Pipeline, order: seq<Tid>, t: Tid)
    requires Inv(p) && p.out.open && p.timeout && (t in p.lines ==> t in order)
    ensures var p1 := FlushStep(p, order);
      Inv(p1) && var p2 := ArchiveTimes(p1, |p1.filled|);
        p2.filled == [] && Of(t, Concat(p2.out.files)) == Kept(p, t)
  {
    hide Of, Concat;
    FlushAllKeeps(p, order, t);
    var p1 := FlushStep(p, order);
    assert Kept(p1, t) == Kept(FlushAll(p, order), t);
    ArchiveDrains(p1, |p1.filled|);
    assert Of(t, []) == [] by { OfOthers(t, []); }
    var p2 := ArchiveTimes(p1, |p1.filled|);
    assert Concat([]) == [] by { ConcatNothing(); }
    assert Concat(p2.out.files) + [] == Concat(p2.out.files);
    assert Of(t, Outflow(p1)) + [] == Of(t, Outflow(p1));
  }

  lemma ConcatNothing()
    ensures Concat([]) == []
  {
  }

  function ArchiveTimes(p: Pipeline, n: nat): Pipeline
    requires Inv(p)
    decreases n
  {
    if n == 0 then p
    else
      ArchiveKeeps(p, true);
      ArchiveTimes(ArchiveStep(p, true), n - 1)
  }

  lemma {:induction false} ArchiveDrains(p: Pipeline, n: nat)
    requires Inv(p) && p.out.open && n == |p.filled|
    ensures ArchiveTimes(p, n).filled == [] && Outflow(ArchiveTimes(p, n)) == Outflow(p)
    decreases n
  {
    if n > 0 {
      ArchiveKeeps(p, true);
      ArchiveDrains(ArchiveStep(p, true), n - 1);
    }
  }
}
