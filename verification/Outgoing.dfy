/**
 The sending half of a connection: chunks wait in a queue, and every call of send and every
 writable event hands one chunk to the kernel, which may take a part of it or refuse it.  What is
 left of a chunk goes to the back of the queue.

 The steps are given for items of any type, so that the order of the bytes can be told apart from
 their values; the connection sends bytes.
 */
module Outgoing {
  import opened Codec
  import opened Framing
  import IOBuffer

  type Reply = IOBuffer.Reply

  datatype Out<T> = Out(queue: seq<seq<T>>, wire: seq<T>, writing: bool) {
    /** Everything handed over and not lost: what the kernel took, then what waits. */
    function Stream(): seq<T> { wire + Joined(queue) }
  }

  function Joined<T>(chunks: seq<seq<T>>): seq<T> {
    if chunks == [] then [] else chunks[0] + Joined(chunks[1..])
  }

  // ---- the steps ----

  function Write<T>(o: Out<T>, chunk: seq<T>, reply: Reply): Out<T> {
    if reply.Refused? then o
    else
      var k := IOBuffer.TakenBy(reply, |chunk|);
      o.(wire := o.wire + chunk[..k], queue := o.queue + if k < |chunk| then [chunk[k..]] else [])
  }

  /** With something queued, that is written first and the new data joins the queue. */
  function SendStep<T>(o: Out<T>, data: seq<T>, reply: Reply): Out<T> {
    if o.queue == [] then
      Write(o, data, reply).(writing := o.writing || (reply.Accepted? && reply.n < |data|))
    else
      var written := Write(o.(queue := o.queue[1..]), o.queue[0], reply);
      written.(queue := written.queue + [data], writing := true)
  }

  function PutStep<T>(o: Out<T>, data: seq<T>): Out<T> { o.(queue := o.queue + [data], writing := true) }

  function WritableStep<T>(o: Out<T>, reply: Reply): Out<T> {
    if o.queue == [] then o.(writing := false) else Write(o.(queue := o.queue[1..]), o.queue[0], reply)
  }

  datatype Event<T> = Sends(data: seq<T>, reply: Reply) | Puts(data: seq<T>) | Writable(reply: Reply)

  function Submitted<T>(e: Event<T>): seq<T> { if e.Writable? then [] else e.data }

  function Step<T>(o: Out<T>, e: Event<T>): Out<T> {
    match e
    case Sends(data, reply) => SendStep(o, data, reply)
    case Puts(data) => PutStep(o, data)
    case Writable(reply) => WritableStep(o, reply)
  }

  /** The chunk the event hands to the kernel. */
  function Front<T>(o: Out<T>, e: Event<T>): seq<T> {
    if e.Puts? then [] else if o.queue != [] then o.queue[0] else Submitted(e)
  }

  /** What waits behind it. */
  function Behind<T>(o: Out<T>): seq<T> { if o.queue == [] then [] else Joined(o.queue[1..]) }

  /** The kernel refuses a chunk that is not empty. */
  predicate Refuses<T>(o: Out<T>, e: Event<T>) { !e.Puts? && e.reply.Refused? && |Front(o, e)| > 0 }

  /** The kernel takes a whole chunk, or nothing waits behind it. */
  predicate InOrder<T>(o: Out<T>, e: Event<T>) {
    e.Puts? || |Front(o, e)| == 0
    || (e.reply.Accepted? && (e.reply.n >= |Front(o, e)| || |Behind(o)| == 0))
  }

  // ---- one step ----

  lemma {:induction false} JoinedAppend<T>(a: seq<seq<T>>, b: seq<seq<T>>)
    ensures Joined(a + b) == Joined(a) + Joined(b)
    decreases a
  {
    if a == [] {
      assert a + b == b;
    } else {
      assert (a + b)[1..] == a[1..] + b;
      JoinedAppend(a[1..], b);
    }
  }

  lemma {:induction false} JoinedOne<T>(chunk: seq<T>)
    ensures Joined([chunk]) == chunk
  {
    assert Joined([chunk]) == chunk + Joined([]);
  }

  /** The stream after a write: the part that was not taken comes after everything that waited. */
  lemma {:induction false} WriteStream<T>(o: Out<T>, chunk: seq<T>, reply: Reply)
    ensures var k := IOBuffer.TakenBy(reply, |chunk|);
      Write(o, chunk, reply).Stream()
      == if reply.Refused? then o.Stream() else o.wire + chunk[..k] + Joined(o.queue) + chunk[k..]
  {
    var k := IOBuffer.TakenBy(reply, |chunk|);
    if k < |chunk| {
      JoinedAppend(o.queue, [chunk[k..]]);
      JoinedOne(chunk[k..]);
    } else {
      assert o.queue + [] == o.queue;
    }
  }

  /** The stream after any step. */
  lemma {:induction false} StepStream<T>(o: Out<T>, e: Event<T>)
    ensures var chunk := Front(o, e);
      var k := if e.Puts? then 0 else IOBuffer.TakenBy(e.reply, |chunk|);
      var late := if o.queue == [] then [] else Submitted(e);
      Step(o, e).Stream() ==
        (if e.Puts? then o.Stream() + e.data
         else if e.reply.Refused? then o.wire + Behind(o) + late
         else o.wire + chunk[..k] + Behind(o) + chunk[k..] + late)
  {
    match e
    case Puts(data) =>
      JoinedAppend(o.queue, [data]);
      JoinedOne(data);
    case Sends(data, reply) =>
      if o.queue == [] {
        WriteStream(o, data, reply);
      } else {
        var rest := o.(queue := o.queue[1..]);
        WriteStream(rest, o.queue[0], reply);
        JoinedAppend(Write(rest, o.queue[0], reply).queue, [data]);
        JoinedOne(data);
      }
    case Writable(reply) =>
      if o.queue != [] {
        WriteStream(o.(queue := o.queue[1..]), o.queue[0], reply);
      }
  }

  lemma {:induction false} WholeStream<T>(o: Out<T>, e: Event<T>)
    requires !e.Puts?
    ensures var late := if o.queue == [] then [] else Submitted(e);
      o.Stream() + Submitted(e) == o.wire + Front(o, e) + Behind(o) + late
  {
  }

  /** In order, a step adds exactly what it submits at the end of the stream. */
  lemma {:induction false} StepKeepsOrder<T>(o: Out<T>, e: Event<T>)
    requires InOrder(o, e)
    ensures Step(o, e).Stream() == o.Stream() + Submitted(e)
  {
    hide Step, Joined, Behind, Front;
    StepStream(o, e);
    if !e.Puts? {
      WholeStream(o, e);
      var chunk := Front(o, e);
      var k := IOBuffer.TakenBy(e.reply, |chunk|);
      assert chunk[..k] + chunk[k..] == chunk;
      if |chunk| == 0 {
        assert o.wire + chunk[..k] == o.wire == o.wire + chunk;
        assert o.wire + Behind(o) + chunk[k..] == o.wire + Behind(o);
      } else if k == |chunk| {
        assert o.wire + chunk[..k] + Behind(o) + chunk[k..] == o.wire + chunk + Behind(o);
      } else {
        assert Behind(o) == [];
        assert o.wire + chunk[..k] + Behind(o) + chunk[k..] == o.wire + chunk + Behind(o);
      }
    }
  }

  predicate Distinct<T(==)>(s: seq<T>) { forall i, j :: 0 <= i < j < |s| ==> s[i] != s[j] }

  /**
   The order is kept exactly when the kernel takes the whole chunk or nothing waits behind it: told
   on items that are all different, so that no two orders look the same.
   */
  lemma {:induction false} KeepsOrderIff<T>(o: Out<T>, e: Event<T>)
    requires Distinct(o.Stream() + Submitted(e))
    ensures Step(o, e).Stream() == o.Stream() + Submitted(e) <==> InOrder(o, e)
  {
    hide Step, Joined, Behind, Front;
    if InOrder(o, e) {
      StepKeepsOrder(o, e);
    } else {
      StepStream(o, e);
      WholeStream(o, e);
      var chunk, behind := Front(o, e), Behind(o);
      var k := IOBuffer.TakenBy(e.reply, |chunk|);
      if e.reply.Accepted? {
        var whole := o.Stream() + Submitted(e);
        var at := |o.wire| + k;
        assert whole[at] == chunk[k];
        assert whole[|o.wire| + |chunk|] == behind[0];
        assert Step(o, e).Stream()[at] == behind[0];
      }
    }
  }

  /** Nothing is lost or repeated, whatever the order, exactly when the kernel does not refuse a chunk. */
  lemma {:induction false} LosesNothingIff<T>(o: Out<T>, e: Event<T>)
    ensures multiset(Step(o, e).Stream()) == multiset(o.Stream() + Submitted(e)) <==> !Refuses(o, e)
  {
    hide Step, Joined, Behind, Front;
    StepStream(o, e);
    if !e.Puts? {
      WholeStream(o, e);
      var chunk := Front(o, e);
      var late := if o.queue == [] then [] else Submitted(e);
      var k := IOBuffer.TakenBy(e.reply, |chunk|);
      if e.reply.Accepted? {
        Rejoined(o.wire, chunk, k, Behind(o), late);
      } else {
        assert |multiset(o.wire + Behind(o) + late)| == |o.wire + Behind(o) + late|;
        assert |multiset(o.Stream() + Submitted(e))| == |o.wire + chunk + Behind(o) + late|;
        if |chunk| == 0 { assert o.wire + chunk == o.wire; }
      }
    }
  }

  lemma {:induction false} Rejoined<T>(wire: seq<T>, chunk: seq<T>, k: nat, behind: seq<T>, late: seq<T>)
    requires k <= |chunk|
    ensures multiset(wire + chunk[..k] + behind + chunk[k..] + late) == multiset(wire + chunk + behind + late)
  {
    assert chunk == chunk[..k] + chunk[k..];
  }

  // ---- any run ----

  function Run<T>(o: Out<T>, events: seq<Event<T>>): Out<T>
    decreases events
  {
    if events == [] then o else Run(Step(o, events[0]), events[1..])
  }

  function AllSubmitted<T>(events: seq<Event<T>>): seq<T> {
    if events == [] then [] else Submitted(events[0]) + AllSubmitted(events[1..])
  }

  predicate AllInOrder<T>(o: Out<T>, events: seq<Event<T>>)
    decreases events
  {
    events == [] || (InOrder(o, events[0]) && AllInOrder(Step(o, events[0]), events[1..]))
  }

  predicate NoneRefused<T>(o: Out<T>, events: seq<Event<T>>)
    decreases events
  {
    events == [] || (!Refuses(o, events[0]) && NoneRefused(Step(o, events[0]), events[1..]))
  }

  /** In order throughout, what the kernel took and what waits is what was handed over, in order. */
  lemma {:induction false} RunKeepsOrder<T>(o: Out<T>, events: seq<Event<T>>)
    requires AllInOrder(o, events)
    ensures Run(o, events).Stream() == o.Stream() + AllSubmitted(events)
    decreases events
  {
    hide Step, InOrder, Submitted;
    if events != [] {
      StepKeepsOrder(o, events[0]);
      RunKeepsOrder(Step(o, events[0]), events[1..]);
    }
  }

  lemma {:induction false} StepLength<T>(o: Out<T>, e: Event<T>)
    ensures |Step(o, e).Stream()| == |o.Stream()| + |Submitted(e)| - (if Refuses(o, e) then |Front(o, e)| else 0)
  {
    hide Step, Joined, Behind;
    StepStream(o, e);
    if !e.Puts? { WholeStream(o, e); }
  }

  /** A run never adds items, and every refusal takes some away for good. */
  lemma {:induction false} RunLength<T>(o: Out<T>, events: seq<Event<T>>)
    ensures |Run(o, events).Stream()| <= |o.Stream()| + |AllSubmitted(events)|
    ensures !NoneRefused(o, events) ==> |Run(o, events).Stream()| < |o.Stream()| + |AllSubmitted(events)|
    decreases events
  {
    hide Step, Front, Submitted, Out.Stream;
    if events != [] {
      StepLength(o, events[0]);
      RunLength(Step(o, events[0]), events[1..]);
    }
  }

  lemma {:induction false} RunWithoutRefusal<T>(o: Out<T>, events: seq<Event<T>>)
    requires NoneRefused(o, events)
    ensures multiset(Run(o, events).Stream()) == multiset(o.Stream() + AllSubmitted(events))
    decreases events
  {
    hide Step, Refuses, Submitted, Out.Stream;
    if events == [] {
      assert o.Stream() + [] == o.Stream();
    } else {
      LosesNothingIff(o, events[0]);
      RunWithoutRefusal(Step(o, events[0]), events[1..]);
      var rest := AllSubmitted(events[1..]);
      assert multiset(Step(o, events[0]).Stream() + rest) == multiset(o.Stream() + Submitted(events[0])) + multiset(rest);
      assert o.Stream() + AllSubmitted(events) == o.Stream() + Submitted(events[0]) + rest;
    }
  }

  /** Every item handed over is on the wire or waiting, once, exactly when no chunk of the run was refused. */
  lemma {:induction false} RunLosesNothing<T>(o: Out<T>, events: seq<Event<T>>)
    ensures multiset(Run(o, events).Stream()) == multiset(o.Stream() + AllSubmitted(events)) <==> NoneRefused(o, events)
  {
    hide Run, AllSubmitted, Out.Stream, NoneRefused;
    if NoneRefused(o, events) {
      RunWithoutRefusal(o, events);
    } else {
      RunLength(o, events);
      assert |multiset(Run(o, events).Stream())| == |Run(o, events).Stream()|;
      assert |multiset(o.Stream() + AllSubmitted(events))| == |o.Stream()| + |AllSubmitted(events)|;
    }
  }

  /** Whatever the kernel says, writable events stay asked for while anything waits. */
  lemma {:induction false} AskedWhileWaiting<T>(o: Out<T>, events: seq<Event<T>>)
    requires o.queue != [] ==> o.writing
    ensures Run(o, events).queue != [] ==> Run(o, events).writing
    decreases events
  {
    if events != [] { AskedWhileWaiting(Step(o, events[0]), events[1..]); }
  }

  // ---- the queue drains ----

  /** A send or put asks for writable events exactly when they were asked for before or something waits afterwards. */
  lemma {:induction false} InterestIff<T>(o: Out<T>, e: Event<T>)
    ensures !e.Writable? ==> (Step(o, e).writing <==> o.writing || Step(o, e).queue != [])
    ensures e.Writable? ==> (Step(o, e).writing <==> o.writing && o.queue != [])
  {
    if e.Sends? && o.queue == [] && e.reply.Accepted? { assert [] + [e.data] == [e.data]; }
  }

  /** Chunks stay apart: what waits is the old chunks, without the front one, and at most two new ones behind them. */
  lemma {:induction false} ChunksStayApart<T>(o: Out<T>, e: Event<T>)
    ensures var rest := if e.Puts? || o.queue == [] then o.queue else o.queue[1..];
      var front := Front(o, e);
      var left := if e.Puts? || e.reply.Refused? || e.reply.n >= |front| then [] else [front[e.reply.n..]];
      Step(o, e).queue == rest + left + (if e.Writable? || (e.Sends? && o.queue == []) then [] else [e.data])
  {
    var rest := if e.Puts? || o.queue == [] then o.queue else o.queue[1..];
    assert rest + [] == rest;
  }

  function WritableRun<T>(o: Out<T>, ns: seq<nat>): Out<T>
    decreases ns
  {
    if ns == [] then o else WritableRun(WritableStep(o, IOBuffer.Accepted(ns[0])), ns[1..])
  }

  lemma {:induction false} WritableProgress<T>(o: Out<T>, n: nat)
    requires n > 0 && o.queue != []
    ensures var o' := WritableStep(o, IOBuffer.Accepted(n));
      && |Joined(o'.queue)| + |o'.queue| < |Joined(o.queue)| + |o.queue|
      && multiset(o'.Stream()) == multiset(o.Stream())
  {
    var e := Writable(IOBuffer.Accepted(n));
    LosesNothingIff(o, e);
    assert o.Stream() + Submitted(e) == o.Stream();
    var chunk := o.queue[0];
    if n < |chunk| {
      JoinedAppend(o.queue[1..], [chunk[n..]]);
      JoinedOne(chunk[n..]);
    } else {
      assert o.queue[1..] + [] == o.queue[1..];
    }
  }

  /**
   When the kernel takes something at each writable event, enough events put everything that waited
   on the wire, once, and no further event is asked for.
   */
  lemma {:induction false} Drains<T>(o: Out<T>, ns: seq<nat>)
    requires forall i :: 0 <= i < |ns| ==> ns[i] > 0
    requires |ns| > |Joined(o.queue)| + |o.queue|
    ensures var o' := WritableRun(o, ns);
      o'.queue == [] && !o'.writing && multiset(o'.wire) == multiset(o.Stream())
    decreases ns
  {
    if o.queue != [] {
      WritableProgress(o, ns[0]);
      Drains(WritableStep(o, IOBuffer.Accepted(ns[0])), ns[1..]);
    } else {
      assert o.Stream() == o.wire;
      NothingToDrain(o.(writing := false), ns[1..]);
    }
  }

  lemma {:induction false} NothingToDrain<T>(o: Out<T>, ns: seq<nat>)
    requires o.queue == [] && !o.writing
    ensures WritableRun(o, ns) == o
    decreases ns
  {
    if ns != [] { NothingToDrain(o, ns[1..]); }
  }

  /** Two chunks wait and the first is taken in part: the second gets in between its halves. */
  lemma {:induction false} PartialWriteInterleaves<T>(a: seq<T>, b: seq<T>, k: nat)
    requires 0 < k < |a|
    ensures var o := Out([a, b], [], true);
      WritableRun(o, [k, |b| + 1, |a|]) == Out([], a[..k] + b + a[k..], true)
  {
    var o, o1 := Out([a, b], [], true), Out([b, a[k..]], a[..k], true);
    var o2, o3 := Out([a[k..]], a[..k] + b, true), Out([], a[..k] + b + a[k..], true);
    WritesFront(a, [b], [], k);
    assert [] + a[..k] == a[..k];
    WritesFront(b, [a[k..]], a[..k], |b| + 1);
    WritesFront(a[k..], [], a[..k] + b, |a|);
    hide WritableStep;
    assert WritableRun(o3, []) == o3;
    assert [|a|][1..] == [] && [|b| + 1, |a|][1..] == [|a|] && [k, |b| + 1, |a|][1..] == [|b| + 1, |a|];
    assert WritableRun(o2, [|a|]) == WritableRun(o3, []);
    assert WritableRun(o1, [|b| + 1, |a|]) == WritableRun(o2, [|a|]);
    assert WritableRun(o, [k, |b| + 1, |a|]) == WritableRun(o1, [|b| + 1, |a|]);
  }

  lemma {:induction false} WritesFront<T>(chunk: seq<T>, rest: seq<seq<T>>, wire: seq<T>, n: nat)
    ensures WritableStep(Out([chunk] + rest, wire, true), IOBuffer.Accepted(n))
         == if n < |chunk| then Out(rest + [chunk[n..]], wire + chunk[..n], true) else Out(rest, wire + chunk, true)
  {
    assert ([chunk] + rest)[1..] == rest && rest + [] == rest && chunk[..|chunk|] == chunk;
  }

  // ---- from sender to receiver ----

  const IDLE: Out<Byte> := Out([], [], false)

  /**
   Both ends together.  One side hands the encodings of messages to its connection in any mixture of
   send and putToBuffer, and what is on the wire and then what waits is what was handed over; the
   other reads what is on the wire in any chunks.  The receiver decodes exactly the first messages, in order, and what it has not taken is
   on its way, if and only if no chunk finds exactly eight retained bytes.
   */
  lemma {:induction false} SenderToReceiver(events: seq<Event<Byte>>, ms: seq<Message>, s: Server, chunks: seq<Bytes>, transit: Bytes)
    requires Run(IDLE, events).wire + Joined(Run(IDLE, events).queue) == AllSubmitted(events) == Flatten(EncodeAll(ms))
    requires s.conn.Pending() == [] && Flatten(chunks) + transit == Run(IDLE, events).wire
    requires AllServed(s.handlers, ms) && AllReady(s.handlers)
    ensures Delivers(s, ms, chunks, transit + Joined(Run(IDLE, events).queue)) <==> Clean(s, chunks)
  {
    hide *;
    Regrouped(Flatten(chunks), transit, Joined(Run(IDLE, events).queue));
    NothingPending(s.conn.Pending(), Flatten(chunks));
    EndToEnd(s, ms, chunks, transit + Joined(Run(IDLE, events).queue));
  }

  /** In particular when the kernel takes every chunk whole or with nothing waiting behind it. */
  lemma {:induction false} SentInOrder(events: seq<Event<Byte>>)
    requires AllInOrder(IDLE, events)
    ensures Run(IDLE, events).wire + Joined(Run(IDLE, events).queue) == AllSubmitted(events)
  {
    RunKeepsOrder(IDLE, events);
    assert IDLE.Stream() + AllSubmitted(events) == AllSubmitted(events);
  }

  lemma {:induction false} Regrouped(a: Bytes, b: Bytes, c: Bytes)
    ensures a + (b + c) == a + b + c
  {
  }

  lemma {:induction false} NothingPending(pending: Bytes, a: Bytes)
    ensures pending == [] ==> pending + a == a
  {
  }

  // ---- the object ----

  class Sender {
    const outputBuffer: IOBuffer.Buffer
    var writing: bool
    /** What the kernel has taken. */
    ghost var wire: Bytes

    ghost function State(): Out<Byte>
      reads this, outputBuffer
    {
      Out(outputBuffer.dataQueue, wire, writing)
    }

    constructor ()
      ensures State() == IDLE && fresh(outputBuffer)
    {
      outputBuffer := new IOBuffer.Buffer();
      writing := false;
      wire := [];
    }

    method Send(data: Bytes, reply: Reply)
      modifies this, outputBuffer`dataQueue
      ensures State() == SendStep(old(State()), data, reply)
    {
      var msg := outputBuffer.Get();
      if msg == None {
        var n := outputBuffer.Write(data, reply);
        wire := wire + data[..IOBuffer.TakenBy(reply, |data|)];
        if |data| - n > 0 && n >= 0 { writing := true; }
      } else {
        var n := outputBuffer.Write(msg.value, reply);
        wire := wire + msg.value[..IOBuffer.TakenBy(reply, |msg.value|)];
        outputBuffer.Put(data);
        writing := true;
      }
    }

    method PutToBuffer(data: Bytes)
      modifies this, outputBuffer`dataQueue
      ensures State() == PutStep(old(State()), data)
    {
      outputBuffer.Put(data);
      writing := true;
    }

    method WriteFunc(reply: Reply)
      modifies this, outputBuffer`dataQueue
      ensures State() == WritableStep(old(State()), reply)
    {
      var msg := outputBuffer.Get();
      if msg == None {
        writing := false;
        return;
      }
      var n := outputBuffer.Write(msg.value, reply);
      wire := wire + msg.value[..IOBuffer.TakenBy(reply, |msg.value|)];
    }
  }
}
