/**
 From bytes to messages.  A connection keeps the bytes of an unfinished message and the chunks
 that have arrived; on each read event the handler looks at the length of the next message,
 takes the message if it is complete, and decodes it into the object registered for its name.
 */
module Framing {
  import opened Codec
  import IOBuffer

  datatype Conn = Conn(incomplete: Bytes, queue: seq<Bytes>) {
    /** All bytes received and not yet taken. */
    function Pending(): Bytes { incomplete + Flatten(queue) }
  }

  /** Moves chunks behind the unfinished message until it is long enough, or no chunk is left. */
  function Drain(c: Conn, len: nat, take: bool): (Bytes, Conn)
    decreases c.queue
  {
    if c.queue == [] then ([], c)
    else
      var all, rest := c.incomplete + c.queue[0], c.queue[1..];
      if |all| < len then Drain(Conn(all, rest), len, take)
      else (all[..len], Conn(if take then all[len..] else all, rest))
  }

  /**
   The bytes asked for, and the connection after.  When the unfinished message is exactly as
   long as asked for, it is moved out even if it was only to be looked at.
   */
  function TryGet(c: Conn, len: nat, take: bool): (Bytes, Conn) {
    if len == 0 && c.incomplete == [] && c.queue != [] then (c.queue[0], c.(queue := c.queue[1..]))
    else if len == 0 then (c.incomplete, if take then c.(incomplete := []) else c)
    else if |c.incomplete| == len then (c.incomplete, c.(incomplete := []))
    else if |c.incomplete| > len then
      (c.incomplete[..len], if take then c.(incomplete := c.incomplete[len..]) else c)
    else Drain(c, len, take)
  }

  class TcpConnection {
    const inputBuffer: IOBuffer.Buffer
    var incompleteMessage: Bytes

    ghost function State(): Conn
      reads this, inputBuffer
    {
      Conn(incompleteMessage, inputBuffer.dataQueue)
    }

    constructor ()
      ensures State() == Conn([], []) && fresh(inputBuffer) && inputBuffer.State().Sane()
    {
      inputBuffer := new IOBuffer.Buffer();
      incompleteMessage := [];
    }

    method GetMessage(len: nat, takeAway: bool) returns (res: Bytes)
      modifies this, inputBuffer`dataQueue
      ensures (res, State()) == TryGet(old(State()), len, takeAway)
    {
      res := [];
      if len <= 0 {
        if incompleteMessage == [] {
          var msg := inputBuffer.Get();
          if msg.Some? {
            return msg.value;
          }
        } else if takeAway {
          res := incompleteMessage;
          incompleteMessage := [];
          return res;
        } else {
          return incompleteMessage;
        }
      }
      if |incompleteMessage| == len {
        res := incompleteMessage;
        incompleteMessage := [];
      } else if |incompleteMessage| > len {
        res := incompleteMessage[..len];
        if takeAway {
          incompleteMessage := incompleteMessage[len..];
        }
      } else {
        while inputBuffer.dataQueue != []
          invariant |incompleteMessage| < len && res == []
          invariant Drain(State(), len, takeAway) == Drain(old(State()), len, takeAway)
          decreases |inputBuffer.dataQueue|
        {
          var chunk := inputBuffer.Get();
          var l := |chunk.value|;
          if l + |incompleteMessage| == len {
            incompleteMessage := incompleteMessage + chunk.value;
            res := incompleteMessage;
            assert res == res[..len] && res[len..] == [];
            if takeAway {
              incompleteMessage := [];
            }
            break;
          } else if l + |incompleteMessage| < len {
            incompleteMessage := incompleteMessage + chunk.value;
          } else {
            incompleteMessage := incompleteMessage + chunk.value;
            res := incompleteMessage[..len];
            if takeAway {
              incompleteMessage := incompleteMessage[len..];
            }
            break;
          }
        }
      }
    }
  }

  // ---- what tryGet does to the stream ----

  lemma {:induction false} FlattenFirst(c: Conn)
    requires c.queue != []
    ensures c.Pending() == c.incomplete + c.queue[0] + Flatten(c.queue[1..])
  {
  }

  lemma {:induction false} DrainMeets(c: Conn, len: nat, take: bool)
    requires |c.incomplete| < len
    ensures var (res, c') := Drain(c, len, take);
      && res == (if |c.Pending()| >= len then c.Pending()[..len] else [])
      && c'.Pending() == (if take then c.Pending()[|res|..] else c.Pending())
    decreases c.queue
  {
    if c.queue == [] {
      assert c.Pending() == c.incomplete;
    } else {
      FlattenFirst(c);
      var all, rest := c.incomplete + c.queue[0], c.queue[1..];
      if |all| < len { DrainMeets(Conn(all, rest), len, take); }
    }
  }

  /**
   For a positive length, and unless exactly that much is retained and only looked at: the
   result is the first bytes of the stream, or empty exactly when the stream is too short, and
   the stream loses exactly what was taken.
   */
  lemma {:induction false} TryGetMeets(c: Conn, len: nat, take: bool)
    requires len > 0 && (take || |c.incomplete| != len)
    ensures var (res, c') := TryGet(c, len, take);
      && res == (if |c.Pending()| >= len then c.Pending()[..len] else [])
      && c'.Pending() == (if take then c.Pending()[|res|..] else c.Pending())
  {
    if |c.incomplete| < len { DrainMeets(c, len, take); }
  }

  /** A look leaves the stream as it was exactly when not exactly that much is retained. */
  lemma {:induction false} LookKeepsStreamIff(c: Conn, len: nat)
    requires len > 0
    ensures TryGet(c, len, false).1.Pending() == c.Pending() <==> |c.incomplete| != len
  {
    if |c.incomplete| != len {
      TryGetMeets(c, len, false);
    } else {
      assert |TryGet(c, len, false).1.Pending()| == |c.Pending()| - len;
    }
  }

  /** The first chunks of the queue that together with the retained bytes are long enough, or all of them. */
  lemma {:induction false} DrainMoves(c: Conn, len: nat, take: bool) returns (j: nat)
    requires |c.incomplete| < len
    ensures j <= |c.queue|
    ensures var all, (res, c') := c.incomplete + Flatten(c.queue[..j]), Drain(c, len, take);
      && c'.queue == c.queue[j..]
      && (forall i :: 0 <= i < j ==> |c.incomplete + Flatten(c.queue[..i])| < len)
      && if |all| >= len then res == all[..len] && c'.incomplete == if take then all[len..] else all
         else j == |c.queue| && res == [] && c'.incomplete == all
    decreases c.queue
  {
    var all := c.incomplete + (if c.queue == [] then [] else c.queue[0]);
    assert c.incomplete + Flatten(c.queue[..0]) == c.incomplete;
    if c.queue == [] {
      j := 0;
      assert c.queue[0..] == c.queue;
    } else if |all| < len {
      var rest := Conn(all, c.queue[1..]);
      var i := DrainMoves(rest, len, take);
      j := i + 1;
      forall k | 0 <= k <= |rest.queue| ensures c.incomplete + Flatten(c.queue[..k + 1]) == all + Flatten(rest.queue[..k]) {
        assert c.queue[..k + 1][0] == c.queue[0] && c.queue[..k + 1][1..] == rest.queue[..k];
      }
      assert c.queue[j..] == rest.queue[i..];
      forall k | 0 <= k < j ensures |c.incomplete + Flatten(c.queue[..k])| < len {
        if k > 0 { assert |all + Flatten(rest.queue[..k - 1])| < len; }
      }
    } else {
      j := 1;
      assert c.queue[..1][0] == c.queue[0] && c.queue[..1][1..] == [];
      assert c.incomplete + Flatten(c.queue[..1]) == all;
    }
  }

  /**
   What a call for some bytes leaves retained, chunk by chunk: when more than asked for is retained no
   chunk moves; when exactly that, it is moved out even by a look; when less, just as many chunks move
   up as are needed, or all of them.
   */
  lemma {:induction false} Retained(c: Conn, len: nat, take: bool) returns (j: nat)
    requires len > 0
    ensures j <= |c.queue| && TryGet(c, len, take).1.queue == c.queue[j..]
    ensures forall i :: 0 <= i < j ==> |c.incomplete + Flatten(c.queue[..i])| < len
    ensures var all, (res, c') := c.incomplete + Flatten(c.queue[..j]), TryGet(c, len, take);
      if |c.incomplete| == len then j == 0 && res == c.incomplete && c'.incomplete == []
      else if |all| >= len then res == all[..len] && c'.incomplete == if take then all[len..] else all
      else j == |c.queue| && res == [] && c'.incomplete == all
  {
    assert c.incomplete + Flatten(c.queue[..0]) == c.incomplete;
    if |c.incomplete| < len {
      j := DrainMoves(c, len, take);
    } else {
      j := 0;
      assert c.queue[0..] == c.queue;
    }
  }

  // ---- any use of a connection ----

  datatype Use = Arrives(chunk: Bytes) | Gets(len: nat, take: bool)

  /** A look that takes bytes away: exactly the retained ones, or, when everything is asked for, a whole chunk. */
  predicate Spoils(c: Conn, len: nat, take: bool) {
    !take && if len == 0 then c.incomplete == [] && c.queue != [] && c.queue[0] != [] else |c.incomplete| == len
  }

  /** What a use takes for its caller, and the connection after it. */
  function UseStep(c: Conn, u: Use): (Bytes, Conn) {
    match u
    case Arrives(chunk) => ([], c.(queue := c.queue + [chunk]))
    case Gets(len, take) => var (res, c') := TryGet(c, len, take); (if take then res else [], c')
  }

  function UseAll(c: Conn, uses: seq<Use>): (Bytes, Conn)
    decreases uses
  {
    if uses == [] then ([], c)
    else
      var (first, c1) := UseStep(c, uses[0]);
      var (rest, end) := UseAll(c1, uses[1..]);
      (first + rest, end)
  }

  function Arrived(u: Use): Bytes { if u.Arrives? then u.chunk else [] }

  function AllArrived(uses: seq<Use>): Bytes {
    if uses == [] then [] else Arrived(uses[0]) + AllArrived(uses[1..])
  }

  predicate NoneSpoils(c: Conn, uses: seq<Use>)
    decreases uses
  {
    uses == []
    || (!(uses[0].Gets? && Spoils(c, uses[0].len, uses[0].take)) && NoneSpoils(UseStep(c, uses[0]).1, uses[1..]))
  }

  /** A call for everything answers with what is retained, or with one chunk when nothing is. */
  lemma {:induction false} GetEverything(c: Conn, take: bool)
    ensures TryGet(c, 0, take).0
         == if |c.incomplete| > 0 then c.incomplete else if |c.queue| > 0 then c.queue[0] else []
    ensures var (taken, c') := UseStep(c, Gets(0, take));
      if Spoils(c, 0, take) then |taken| + |c'.Pending()| < |c.Pending()| else taken + c'.Pending() == c.Pending()
  {
    if c.incomplete == [] && c.queue != [] {
      FlattenFirst(c);
      assert [] + c.queue[0] == c.queue[0];
    } else {
      assert [] + c.Pending() == c.Pending() && [] + Flatten(c.queue) == Flatten(c.queue);
    }
  }

  lemma {:induction false} UseConserves(c: Conn, u: Use)
    ensures var (taken, c') := UseStep(c, u);
      if u.Gets? && Spoils(c, u.len, u.take) then |taken| + |c'.Pending()| < |c.Pending() + Arrived(u)|
      else taken + c'.Pending() == c.Pending() + Arrived(u)
  {
    hide TryGet, Conn.Pending, Spoils;
    if u.Arrives? {
      ArrivalExtends(c, u.chunk);
      var p := c.Pending() + u.chunk;
      assert [] + p == p;
    } else {
      assert c.Pending() + [] == c.Pending();
      if u.len == 0 { GetEverything(c, u.take); } else { GetSome(c, u.len, u.take); }
    }
  }

  lemma {:induction false} GetSome(c: Conn, len: nat, take: bool)
    requires len > 0
    ensures var (taken, c') := UseStep(c, Gets(len, take));
      if Spoils(c, len, take) then |taken| + |c'.Pending()| < |c.Pending()| else taken + c'.Pending() == c.Pending()
  {
    hide TryGet, Conn.Pending, Flatten;
    if !take && |c.incomplete| == len {
      LookTakes(c, len);
    } else {
      TryGetMeets(c, len, take);
      PartsOf(c.Pending(), len);
    }
  }

  lemma LookTakes(c: Conn, len: nat)
    requires len > 0 && |c.incomplete| == len
    ensures |TryGet(c, len, false).1.Pending()| == |c.Pending()| - len
  {
    hide Flatten, Drain;
  }

  lemma PartsOf(stream: Bytes, len: nat)
    ensures [] + stream == stream
    ensures |stream| >= len ==> stream[..len] + stream[|stream[..len]|..] == stream
    ensures stream[0..] == stream
  {
  }

  lemma {:induction false} NeverMore(c: Conn, uses: seq<Use>)
    ensures var (taken, end) := UseAll(c, uses);
      && |taken| + |end.Pending()| <= |c.Pending() + AllArrived(uses)|
      && (!NoneSpoils(c, uses) ==> |taken| + |end.Pending()| < |c.Pending() + AllArrived(uses)|)
    decreases uses
  {
    hide UseStep, Spoils, Arrived, Conn.Pending;
    if uses != [] {
      UseConserves(c, uses[0]);
      NeverMore(UseStep(c, uses[0]).1, uses[1..]);
    }
  }

  lemma {:induction false} GlueBytes(a: Bytes, b: Bytes, p: Bytes, q: Bytes, p1: Bytes, r: Bytes, end: Bytes)
    requires a + p1 == p + q && b + end == p1 + r
    ensures (a + b) + end == p + (q + r)
  {
    assert (a + b) + end == a + (b + end) == a + (p1 + r) == (a + p1) + r == p + (q + r);
  }

  lemma {:induction false} UsesConserve(c: Conn, uses: seq<Use>)
    requires NoneSpoils(c, uses)
    ensures UseAll(c, uses).0 + UseAll(c, uses).1.Pending() == c.Pending() + AllArrived(uses)
    decreases uses
  {
    hide UseStep, Spoils, Arrived, Conn.Pending;
    if uses == [] {
      assert [] + c.Pending() == c.Pending() + [];
    } else {
      var (first, c1) := UseStep(c, uses[0]);
      var (rest, end) := UseAll(c1, uses[1..]);
      UseConserves(c, uses[0]);
      UsesConserve(c1, uses[1..]);
      GlueBytes(first, rest, c.Pending(), Arrived(uses[0]), c1.Pending(), AllArrived(uses[1..]), end.Pending());
    }
  }

  /**
   The stream law.  In any sequence of arrivals and calls of tryGet, with any lengths, what was taken
   followed by what is pending is what was pending followed by what arrived, if and only if no call
   that should only look asks for exactly what is retained, or for everything with nothing retained
   and a chunk there.
   */
  lemma {:induction false} StreamKeptIff(c: Conn, uses: seq<Use>)
    ensures UseAll(c, uses).0 + UseAll(c, uses).1.Pending() == c.Pending() + AllArrived(uses) <==> NoneSpoils(c, uses)
  {
    hide UseAll, NoneSpoils, Conn.Pending, AllArrived;
    NeverMore(c, uses);
    if NoneSpoils(c, uses) { UsesConserve(c, uses); }
  }

  // ---- one read event ----

  /** A read event: the chunk arrives, the next length is looked at, the next message is taken if whole. */
  function OnRead(c: Conn, chunk: Bytes): (Option<Bytes>, Conn) {
    var (head, c1) := TryGet(c.(queue := c.queue + [chunk]), SIZE_WIDTH, false);
    if head == [] then (None, c1)
    else
      var len := ValueOf(head);
      if len < SIZE_WIDTH then (None, c1)
      else
        var (msg, c2) := TryGet(c1, len, true);
        (if msg == [] then None else Some(msg), c2)
  }

  function Frame(o: Option<Bytes>): Bytes { if o.Some? then o.value else [] }

  lemma {:induction false} FlattenAppend(a: seq<Bytes>, b: seq<Bytes>)
    ensures Flatten(a + b) == Flatten(a) + Flatten(b)
    decreases a
  {
    if a == [] {
      assert a + b == b;
    } else {
      assert (a + b)[1..] == a[1..] + b;
      FlattenAppend(a[1..], b);
    }
  }

  lemma {:induction false} ArrivalExtends(c: Conn, chunk: Bytes)
    ensures c.(queue := c.queue + [chunk]).Pending() == c.Pending() + chunk
  {
    FlattenAppend(c.queue, [chunk]);
    assert [chunk][1..] == [];
  }

  /** The frame a stream holds at its front, if its length and all its bytes are there. */
  function FrontFrame(stream: Bytes): Option<Bytes> {
    if |stream| < SIZE_WIDTH then None
    else
      var len := ValueOf(stream[..SIZE_WIDTH]);
      if len < SIZE_WIDTH || len > |stream| then None else Some(stream[..len])
  }

  /** Off the bad state a read event takes exactly the front frame, and nothing else changes. */
  lemma {:induction false} OnReadMeets(c: Conn, chunk: Bytes)
    requires |c.incomplete| != SIZE_WIDTH
    ensures var (o, c') := OnRead(c, chunk);
      o == FrontFrame(c.Pending() + chunk) && Frame(o) + c'.Pending() == c.Pending() + chunk
  {
    hide Drain, TryGet, ValueOf, Flatten, Conn.Pending;
    var c0 := c.(queue := c.queue + [chunk]);
    ArrivalExtends(c, chunk);
    TryGetMeets(c0, SIZE_WIDTH, false);
    var (head, c1) := TryGet(c0, SIZE_WIDTH, false);
    var stream := c.Pending() + chunk;
    assert c0.Pending() == stream && c1.Pending() == stream;
    assert [] + stream == stream;
    if head != [] && ValueOf(head) >= SIZE_WIDTH {
      var len := ValueOf(head);
      assert head == stream[..SIZE_WIDTH];
      TryGetMeets(c1, len, true);
      if len <= |stream| { assert stream[..len] + stream[len..] == stream; }
    }
  }

  /** In numbers: a message is taken when a length of eight or more, and that many bytes, have arrived. */
  lemma {:induction false} TakesWhenWhole(c: Conn, chunk: Bytes)
    requires |c.incomplete| != 8
    ensures var stream, o := c.Pending() + chunk, OnRead(c, chunk).0;
      && (o.Some? <==> |stream| >= 8 && 8 <= ValueOf(stream[..8]) <= |stream|)
      && (o.Some? ==> o.value == stream[..ValueOf(stream[..8])])
  {
    hide OnRead, ValueOf, Conn.Pending;
    OnReadMeets(c, chunk);
  }

  /** No byte is lost or repeated by a read event exactly when it does not start with eight retained bytes. */
  lemma {:induction false} OnReadConservesIff(c: Conn, chunk: Bytes)
    ensures (var (o, c') := OnRead(c, chunk); Frame(o) + c'.Pending() == c.Pending() + chunk)
            <==> |c.incomplete| != SIZE_WIDTH
  {
    if |c.incomplete| != SIZE_WIDTH {
      OnReadMeets(c, chunk);
    } else {
      hide OnRead, Conn.Pending;
      ReadHolds(c, chunk);
    }
  }

  // ---- the server: frames are dispatched to reused objects ----

  datatype Handler = Handler(kinds: seq<Kind>, receiver: Receiver)

  datatype Server = Server(conn: Conn, handlers: map<Bytes, Handler>, frames: seq<Bytes>, decoded: seq<Message>)

  /** The base decode picks the object by name; a frame of an unknown name is dropped. */
  function Dispatch(handlers: map<Bytes, Handler>, frame: Bytes): (Option<Message>, map<Bytes, Handler>) {
    match Receive(Fresh(HEARTBEAT), HEARTBEAT, frame)
    case None => (None, handlers)
    case Some(base) =>
      if base.name !in handlers then (None, handlers)
      else
        var h := handlers[base.name];
        if |h.receiver.fields| != |h.kinds| then (None, handlers)
        else match Receive(h.receiver, h.kinds, frame)
          case None => (None, handlers)
          case Some(r) => (Some(Message(r.name, r.fields)), handlers[base.name := Handler(h.kinds, r)])
  }

  function Step(s: Server, chunk: Bytes): Server {
    var (o, conn) := OnRead(s.conn, chunk);
    match o
    case None => s.(conn := conn)
    case Some(frame) =>
      var (got, handlers) := Dispatch(s.handlers, frame);
      Server(conn, handlers, s.frames + [frame], s.decoded + if got.Some? then [got.value] else [])
  }

  function Serve(s: Server, chunks: seq<Bytes>): Server
    decreases chunks
  {
    if chunks == [] then s else Serve(Step(s, chunks[0]), chunks[1..])
  }

  /** No read event of the run starts with exactly eight retained bytes. */
  predicate Clean(s: Server, chunks: seq<Bytes>)
    decreases chunks
  {
    chunks == [] || (|s.conn.incomplete| != SIZE_WIDTH && Clean(Step(s, chunks[0]), chunks[1..]))
  }

  /** How many complete messages the run hands over when at most one is taken at each event. */
  function Taken(wire: seq<Bytes>, pending: nat, chunks: seq<Bytes>): nat
    decreases chunks
  {
    if chunks == [] then 0
    else
      var have := pending + |chunks[0]|;
      if wire != [] && |wire[0]| <= have then 1 + Taken(wire[1..], have - |wire[0]|, chunks[1..])
      else Taken(wire, have, chunks[1..])
  }

  function EncodeAll(ms: seq<Message>): (r: seq<Bytes>)
    ensures |r| == |ms|
  {
    if ms == [] then [] else [Encode(ms[0])] + EncodeAll(ms[1..])
  }

  /** The message can be dispatched: its name is registered with its own schema of strings and primitives. */
  predicate Served(handlers: map<Bytes, Handler>, m: Message) {
    && Total(m) < SIZE_LIMIT && |AllBytes(m.fields)| >= 8
    && m.name in handlers
    && var h := handlers[m.name];
      IsSchema(h.kinds) && Plain(h.kinds) && Fits(h.kinds, m.fields)
  }

  predicate AllServed(handlers: map<Bytes, Handler>, ms: seq<Message>) {
    forall i :: 0 <= i < |ms| ==> Served(handlers, ms[i])
  }

  predicate AllReady(handlers: map<Bytes, Handler>) {
    forall name :: name in handlers && Plain(handlers[name].kinds) ==>
      Ready(handlers[name].receiver, handlers[name].kinds)
  }

  lemma {:induction false} PlainHasNoTexts(kinds: seq<Kind>)
    requires Plain(kinds)
    ensures !HasTexts(kinds)
  {
  }

  /** A dispatched frame comes out as the message it encodes, and its object is ready for the next one. */
  lemma {:induction false} DispatchBack(handlers: map<Bytes, Handler>, m: Message)
    requires Served(handlers, m) && AllReady(handlers)
    ensures var (got, handlers') := Dispatch(handlers, Encode(m));
      && got == Some(m) && AllReady(handlers') && handlers'.Keys == handlers.Keys
      && forall name :: name in handlers ==> handlers'[name].kinds == handlers[name].kinds
  {
    hide Encode, Receive, Merge, Fits, AllBytes, Total, Fresh;
    var h := handlers[m.name];
    assert Encode(m) + [] == Encode(m);
    BaseDecode(h.kinds, m, []);
    PlainHasNoTexts(h.kinds);
    var r := ReceiveBack(h.receiver, h.kinds, m, []);
    FitsLengths(h.kinds, m.fields);
    PlainMerge(h.kinds, h.receiver.fields, m.fields);
  }

  /**
   Whatever a frame holds: no object appears or disappears or changes its schema, at most the one of the
   frame's name changes, and none does when no message comes out.
   */
  lemma {:induction false} DispatchKeeps(handlers: map<Bytes, Handler>, frame: Bytes)
    ensures var (got, handlers') := Dispatch(handlers, frame);
      && handlers'.Keys == handlers.Keys
      && (forall name :: name in handlers ==> handlers'[name].kinds == handlers[name].kinds)
      && (got.None? ==> handlers' == handlers)
      && (got.Some? ==>
            var base := Receive(Fresh([Prim(8)]), [Prim(8)], frame);
            && base.Some? && base.value.name in handlers
            && forall name :: name in handlers && name != base.value.name ==> handlers'[name] == handlers[name])
  {
    hide Receive, Fresh;
  }

  lemma {:induction false} FitsLengths(kinds: seq<Kind>, fields: seq<Field>)
    requires Fits(kinds, fields)
    ensures |kinds| == |fields|
  {
  }

  /** The front frame of the wire is its next message, once that has arrived. */
  lemma {:induction false} FrontIsNext(stream: Bytes, ms: seq<Message>, tail: Bytes)
    requires stream + tail == Flatten(EncodeAll(ms))
    requires forall i :: 0 <= i < |ms| ==> Total(ms[i]) < SIZE_LIMIT
    ensures FrontFrame(stream)
         == if ms != [] && |Encode(ms[0])| <= |stream| then Some(Encode(ms[0])) else None
  {
    hide Encode, Total;
    if ms == [] {
      assert |stream + tail| == 0;
    } else {
      var e := Encode(ms[0]);
      EncodeStartsWithTotal(ms[0]);
      EncodeLength(ms[0]);
      assert stream + tail == e + Flatten(EncodeAll(ms)[1..]);
      if |stream| >= SIZE_WIDTH {
        assert stream[..SIZE_WIDTH] == (stream + tail)[..SIZE_WIDTH] == (e + Flatten(EncodeAll(ms)[1..]))[..SIZE_WIDTH] == e[..SIZE_WIDTH];
        if |e| <= |stream| {
          assert stream[..|e|] == (stream + tail)[..|e|] == (e + Flatten(EncodeAll(ms)[1..]))[..|e|] == e;
        }
      }
    }
  }

  /** The frames of the run are the encodings of the first messages, decoded in order; the rest is pending. */
  ghost predicate Delivers(s: Server, ms: seq<Message>, chunks: seq<Bytes>, tail: Bytes) {
    var end, k := Serve(s, chunks), Taken(EncodeAll(ms), |s.conn.Pending()|, chunks);
    && k <= |ms|
    && end.frames == s.frames + EncodeAll(ms)[..k]
    && end.decoded == s.decoded + ms[..k]
    && end.conn.Pending() + tail == Flatten(EncodeAll(ms)[k..])
  }

  /** Off the bad state throughout, the run delivers. */
  lemma {:induction false} CleanDelivers(s: Server, ms: seq<Message>, chunks: seq<Bytes>, tail: Bytes)
    requires s.conn.Pending() + Flatten(chunks) + tail == Flatten(EncodeAll(ms))
    requires AllServed(s.handlers, ms) && AllReady(s.handlers) && Clean(s, chunks)
    ensures Delivers(s, ms, chunks, tail)
    decreases chunks
  {
    hide Encode, Total, OnRead, Dispatch, Served, Step, FrontFrame, AllReady, Conn.Pending, Flatten, ValueOf, Delivers, Serve, Taken;
    if chunks == [] {
      assert Flatten([]) == [] by { FlattenNothing(); }
      NothingArrives(s, ms, tail);
    } else {
      var (chunk, rest) := (chunks[0], chunks[1..]);
      var stream := s.conn.Pending() + chunk;
      StreamArrives(s.conn, chunks, tail);
      AllTotals(s.handlers, ms);
      FrontIsNext(stream, ms, Flatten(rest) + tail);
      OnReadMeets(s.conn, chunk);
      var s1 := Step(s, chunk);
      if ms != [] && |Encode(ms[0])| <= |stream| {
        TakeOne(s, ms, chunk, rest, tail);
        CleanDelivers(s1, ms[1..], rest, tail);
        DeliversOneMore(s, ms, chunks, tail);
      } else {
        KeepAll(s, chunk);
        CleanDelivers(s1, ms, rest, tail);
        DeliversNoMore(s, ms, chunks, tail);
      }
    }
  }

  lemma {:induction false} NothingArrives(s: Server, ms: seq<Message>, tail: Bytes)
    requires s.conn.Pending() + [] + tail == Flatten(EncodeAll(ms))
    ensures Delivers(s, ms, [], tail)
  {
    hide Encode, Flatten, Conn.Pending;
    assert s.conn.Pending() + [] == s.conn.Pending();
    assert EncodeAll(ms)[0..] == EncodeAll(ms);
  }

  lemma {:induction false} DeliversOneMore(s: Server, ms: seq<Message>, chunks: seq<Bytes>, tail: Bytes)
    requires chunks != [] && ms != [] && |Encode(ms[0])| <= |s.conn.Pending() + chunks[0]|
    requires var s1 := Step(s, chunks[0]);
      && s1.frames == s.frames + [Encode(ms[0])] && s1.decoded == s.decoded + [ms[0]]
      && |s1.conn.Pending()| == |s.conn.Pending()| + |chunks[0]| - |Encode(ms[0])|
      && Delivers(s1, ms[1..], chunks[1..], tail)
    ensures Delivers(s, ms, chunks, tail)
  {
    hide Encode, Step, Flatten, Conn.Pending, EncodeAll, Serve, Taken;
    var s1 := Step(s, chunks[0]);
    var k := Taken(EncodeAll(ms[1..]), |s1.conn.Pending()|, chunks[1..]);
    UnfoldTaken(s, s1, ms, chunks);
    var end := Serve(s1, chunks[1..]);
    PrependSeq(s.frames, Encode(ms[0]), EncodeAll(ms[1..]), k, end.frames);
    PrependSeq(s.decoded, ms[0], ms[1..], k, end.decoded);
    assert [ms[0]] + ms[1..] == ms;
  }

  lemma {:induction false} UnfoldTaken(s: Server, s1: Server, ms: seq<Message>, chunks: seq<Bytes>)
    requires chunks != [] && ms != [] && |Encode(ms[0])| <= |s.conn.Pending() + chunks[0]| && s1 == Step(s, chunks[0])
    requires |s1.conn.Pending()| == |s.conn.Pending()| + |chunks[0]| - |Encode(ms[0])|
    ensures Taken(EncodeAll(ms), |s.conn.Pending()|, chunks) == 1 + Taken(EncodeAll(ms[1..]), |s1.conn.Pending()|, chunks[1..])
    ensures Serve(s, chunks) == Serve(s1, chunks[1..]) && EncodeAll(ms) == [Encode(ms[0])] + EncodeAll(ms[1..])
  {
    hide Encode, Step, Flatten, Conn.Pending;
    assert EncodeAll(ms)[1..] == EncodeAll(ms[1..]);
  }

  lemma {:induction false} PrependSeq<T>(done: seq<T>, first: T, rest: seq<T>, k: nat, end: seq<T>)
    requires k <= |rest| && end == done + [first] + rest[..k]
    ensures end == done + ([first] + rest)[..k + 1] && ([first] + rest)[k + 1..] == rest[k..]
  {
  }

  lemma {:induction false} DeliversNoMore(s: Server, ms: seq<Message>, chunks: seq<Bytes>, tail: Bytes)
    requires chunks != [] && (ms == [] || |Encode(ms[0])| > |s.conn.Pending() + chunks[0]|)
    requires var s1 := Step(s, chunks[0]);
      && s1.frames == s.frames && s1.decoded == s.decoded
      && s1.conn.Pending() == s.conn.Pending() + chunks[0]
      && Delivers(s1, ms, chunks[1..], tail)
    ensures Delivers(s, ms, chunks, tail)
  {
    hide Encode, Step, Flatten, Conn.Pending;
  }

  lemma {:induction false} FlattenNothing()
    ensures Flatten([]) == []
  {
  }

  lemma {:induction false} KeepAll(s: Server, chunk: Bytes)
    requires OnRead(s.conn, chunk).0 == None
    requires Frame(OnRead(s.conn, chunk).0) + OnRead(s.conn, chunk).1.Pending() == s.conn.Pending() + chunk
    ensures var s1 := Step(s, chunk);
      && s1.frames == s.frames && s1.decoded == s.decoded && s1.handlers == s.handlers
      && s1.conn.Pending() == s.conn.Pending() + chunk
  {
    hide OnRead;
    var p := OnRead(s.conn, chunk).1.Pending();
    assert [] + p == p;
  }

  lemma {:induction false} StreamArrives(c: Conn, chunks: seq<Bytes>, tail: Bytes)
    requires chunks != []
    ensures c.Pending() + chunks[0] + (Flatten(chunks[1..]) + tail) == c.Pending() + Flatten(chunks) + tail
    ensures c.Pending() + chunks[0] + Flatten(chunks[1..]) + tail == c.Pending() + Flatten(chunks) + tail
  {
  }

  lemma {:induction false} AllTotals(handlers: map<Bytes, Handler>, ms: seq<Message>)
    requires AllServed(handlers, ms)
    ensures forall i :: 0 <= i < |ms| ==> Total(ms[i]) < SIZE_LIMIT
  {
    hide Total;
  }

  lemma {:induction false} TakeOne(s: Server, ms: seq<Message>, chunk: Bytes, rest: seq<Bytes>, tail: Bytes)
    requires ms != [] && AllServed(s.handlers, ms) && AllReady(s.handlers)
    requires OnRead(s.conn, chunk).0 == Some(Encode(ms[0]))
    requires Encode(ms[0]) + OnRead(s.conn, chunk).1.Pending() == s.conn.Pending() + chunk
    requires s.conn.Pending() + chunk + Flatten(rest) + tail == Flatten(EncodeAll(ms))
    ensures var s1 := Step(s, chunk);
      && s1.frames == s.frames + [Encode(ms[0])] && s1.decoded == s.decoded + [ms[0]]
      && AllServed(s1.handlers, ms[1..]) && AllReady(s1.handlers)
      && s1.conn.Pending() + Flatten(rest) + tail == Flatten(EncodeAll(ms[1..]))
      && |s1.conn.Pending()| == |s.conn.Pending()| + |chunk| - |Encode(ms[0])|
  {
    hide Encode, Total, OnRead, Dispatch, AllReady;
    DispatchBack(s.handlers, ms[0]);
    var s1 := Step(s, chunk);
    var e := Encode(ms[0]);
    assert e + (s1.conn.Pending() + Flatten(rest) + tail) == e + Flatten(EncodeAll(ms[1..]));
    CancelFront(e, s1.conn.Pending() + Flatten(rest) + tail, Flatten(EncodeAll(ms[1..])));
  }

  lemma {:induction false} CancelFront(a: Bytes, b: Bytes, c: Bytes)
    requires a + b == a + c
    ensures b == c
  {
    assert (a + b)[|a|..] == b && (a + c)[|a|..] == c;
  }

  // ---- what a bad event costs ----

  /** Bytes handed over and bytes held. */
  function Held(s: Server): nat { |Flatten(s.frames)| + |s.conn.Pending()| }

  lemma {:induction false} StepHolds(s: Server, chunk: Bytes)
    ensures Held(Step(s, chunk)) <= Held(s) + |chunk|
    ensures |s.conn.incomplete| == SIZE_WIDTH ==> Held(Step(s, chunk)) < Held(s) + |chunk|
  {
    hide Conn.Pending, Flatten, OnRead, Dispatch;
    var (o, c) := OnRead(s.conn, chunk);
    ReadHolds(s.conn, chunk);
    if o.Some? {
      FlattenAppend(s.frames, [o.value]);
      FlattenOne(o.value);
    }
  }

  lemma {:induction false} FlattenOne(frame: Bytes)
    ensures Flatten([frame]) == frame
  {
    assert [frame][1..] == [];
  }

  lemma {:induction false} ReadHolds(c: Conn, chunk: Bytes)
    ensures var (o, c') := OnRead(c, chunk);
      |Frame(o)| + |c'.Pending()| == |c.Pending()| + |chunk| - (if |c.incomplete| == SIZE_WIDTH then SIZE_WIDTH else 0)
  {
    hide Drain, ValueOf, Flatten;
    if |c.incomplete| != SIZE_WIDTH {
      OnReadMeets(c, chunk);
    } else {
      var c0 := c.(queue := c.queue + [chunk]);
      ArrivalExtends(c, chunk);
      var (head, c1) := TryGet(c0, SIZE_WIDTH, false);
      assert |c1.Pending()| == |c.Pending() + chunk| - SIZE_WIDTH;
      var len := ValueOf(head);
      if len >= SIZE_WIDTH { TryGetMeets(c1, len, true); }
    }
  }

  /** Bytes never come from nowhere, and every bad event loses some for good. */
  lemma {:induction false} ServeHolds(s: Server, chunks: seq<Bytes>)
    ensures Held(Serve(s, chunks)) <= Held(s) + |Flatten(chunks)|
    ensures !Clean(s, chunks) ==> Held(Serve(s, chunks)) < Held(s) + |Flatten(chunks)|
    decreases chunks
  {
    hide Step, Held;
    if chunks != [] {
      StepHolds(s, chunks[0]);
      ServeHolds(Step(s, chunks[0]), chunks[1..]);
    }
  }

  lemma {:induction false} DeliveryHoldsAll(s: Server, ms: seq<Message>, chunks: seq<Bytes>, tail: Bytes)
    requires s.conn.Pending() + Flatten(chunks) + tail == Flatten(EncodeAll(ms))
    requires Delivers(s, ms, chunks, tail)
    ensures Held(Serve(s, chunks)) == Held(s) + |Flatten(chunks)|
  {
    hide Serve, Taken, Flatten, EncodeAll, Conn.Pending;
    var end, k := Serve(s, chunks), Taken(EncodeAll(ms), |s.conn.Pending()|, chunks);
    var wire := EncodeAll(ms);
    FlattenAppend(s.frames, wire[..k]);
    FlattenAppend(wire[..k], wire[k..]);
    assert wire[..k] + wire[k..] == wire;
    assert |end.conn.Pending()| + |tail| == |Flatten(wire[k..])|;
    assert |s.conn.Pending()| + |Flatten(chunks)| + |tail| == |Flatten(wire)|;
  }

  /**
   The end-to-end theorem.  Messages are serialised one after another onto a wire and arrive in
   any chunks.  The frames taken are the encodings of the first messages, one for every event at
   which the next message is whole, they decode to exactly those messages in order, and no byte of
   the rest is lost, if and only if no read event starts with exactly eight retained bytes.
   */
  lemma {:induction false} EndToEnd(s: Server, ms: seq<Message>, chunks: seq<Bytes>, tail: Bytes)
    requires s.conn.Pending() + Flatten(chunks) + tail == Flatten(EncodeAll(ms))
    requires AllServed(s.handlers, ms) && AllReady(s.handlers)
    ensures Delivers(s, ms, chunks, tail) <==> Clean(s, chunks)
  {
    hide Serve, Delivers, Flatten, Conn.Pending, EncodeAll, AllServed, AllReady, Held, Clean;
    if Clean(s, chunks) {
      CleanDelivers(s, ms, chunks, tail);
    } else {
      ServeHolds(s, chunks);
      if Delivers(s, ms, chunks, tail) { DeliveryHoldsAll(s, ms, chunks, tail); }
    }
  }

  // ---- when everything that arrived has been taken ----

  /** How many messages of the wire lie wholly within its first bytes. */
  function Whole(wire: seq<Bytes>, bytes: nat): (k: nat)
    ensures k <= |wire|
  {
    if wire == [] || |wire[0]| > bytes then 0 else 1 + Whole(wire[1..], bytes - |wire[0]|)
  }

  /** How many bytes are there after so many events. */
  function Here(pending: nat, chunks: seq<Bytes>, j: nat): nat
    requires j <= |chunks|
  {
    pending + |Flatten(chunks[..j])|
  }

  /** The messages whole after some event, and one for each later event, make up all that are whole at the end. */
  predicate EnoughFrom(wire: seq<Bytes>, pending: nat, chunks: seq<Bytes>, j: nat)
    requires j <= |chunks|
  {
    Whole(wire, Here(pending, chunks, |chunks|))
      <= (if j == 0 then 0 else Whole(wire, Here(pending, chunks, j))) + (|chunks| - j)
  }

  /** At every event, what has become whole so far and the events still to come suffice. */
  predicate KeepsUp(wire: seq<Bytes>, pending: nat, chunks: seq<Bytes>) {
    forall j :: 0 <= j <= |chunks| ==> EnoughFrom(wire, pending, chunks, j)
  }

  lemma {:induction false} HereShift(pending: nat, chunks: seq<Bytes>, j: nat)
    requires 0 < j <= |chunks|
    ensures Here(pending, chunks, j) == Here(pending + |chunks[0]|, chunks[1..], j - 1)
    ensures Here(pending, chunks, j) >= pending + |chunks[0]|
  {
    assert chunks[..j][0] == chunks[0] && chunks[..j][1..] == chunks[1..][..j - 1];
  }

  lemma {:induction false} ShiftTaken(wire: seq<Bytes>, pending: nat, chunks: seq<Bytes>, j: nat)
    requires chunks != [] && 0 < j <= |chunks| && wire != [] && |wire[0]| <= pending + |chunks[0]|
    ensures Whole(wire, Here(pending, chunks, j))
         == 1 + Whole(wire[1..], Here(pending + |chunks[0]| - |wire[0]|, chunks[1..], j - 1))
  {
    hide Flatten;
    HereShift(pending, chunks, j);
  }

  lemma {:induction false} KeepsUpTaken(wire: seq<Bytes>, pending: nat, chunks: seq<Bytes>)
    requires chunks != [] && wire != [] && |wire[0]| <= pending + |chunks[0]|
    ensures KeepsUp(wire, pending, chunks)
       <==> KeepsUp(wire[1..], pending + |chunks[0]| - |wire[0]|, chunks[1..])
  {
    hide Here, Whole;
    var next, rest := pending + |chunks[0]| - |wire[0]|, chunks[1..];
    ShiftTaken(wire, pending, chunks, |chunks|);
    forall j | 0 < j <= |chunks|
      ensures j > 1 ==> (EnoughFrom(wire, pending, chunks, j) <==> EnoughFrom(wire[1..], next, rest, j - 1))
      ensures j == 1 ==> (EnoughFrom(wire, pending, chunks, 0) <==> EnoughFrom(wire[1..], next, rest, 0))
      ensures j == 1 && EnoughFrom(wire, pending, chunks, 0) ==> EnoughFrom(wire, pending, chunks, 1)
    {
      ShiftTaken(wire, pending, chunks, j);
    }
    if KeepsUp(wire, pending, chunks) {
      forall j | 0 <= j <= |rest| ensures EnoughFrom(wire[1..], next, rest, j) {
        assert EnoughFrom(wire, pending, chunks, if j == 0 then 0 else j + 1);
      }
    }
    if KeepsUp(wire[1..], next, rest) {
      assert EnoughFrom(wire[1..], next, rest, 0);
      forall j | 0 <= j <= |chunks| ensures EnoughFrom(wire, pending, chunks, j) {
        if j > 1 { assert EnoughFrom(wire[1..], next, rest, j - 1); }
      }
    }
  }

  lemma {:induction false} KeepsUpWaiting(wire: seq<Bytes>, pending: nat, chunks: seq<Bytes>)
    requires chunks != [] && (wire == [] || |wire[0]| > pending + |chunks[0]|)
    ensures KeepsUp(wire, pending, chunks) <==> KeepsUp(wire, pending + |chunks[0]|, chunks[1..])
  {
    hide Here, Whole;
    var next, rest := pending + |chunks[0]|, chunks[1..];
    NoneWhole(wire, pending, chunks);
    HereShift(pending, chunks, |chunks|);
    forall j | 0 < j <= |chunks|
      ensures EnoughFrom(wire, pending, chunks, j) <==> EnoughFrom(wire, next, rest, j - 1)
      ensures j == 1 && EnoughFrom(wire, pending, chunks, 1) ==> EnoughFrom(wire, pending, chunks, 0)
    {
      HereShift(pending, chunks, j);
    }
    if KeepsUp(wire, pending, chunks) {
      forall j | 0 <= j <= |rest| ensures EnoughFrom(wire, next, rest, j) {
        assert EnoughFrom(wire, pending, chunks, j + 1);
      }
    }
    if KeepsUp(wire, next, rest) {
      forall j | 0 <= j <= |chunks| ensures EnoughFrom(wire, pending, chunks, j) {
        if j > 0 { assert EnoughFrom(wire, next, rest, j - 1); } else { assert EnoughFrom(wire, next, rest, 0); }
      }
    }
  }

  lemma {:induction false} NoneWhole(wire: seq<Bytes>, pending: nat, chunks: seq<Bytes>)
    requires chunks != [] && (wire == [] || |wire[0]| > pending + |chunks[0]|)
    ensures Whole(wire, Here(pending, chunks, 1)) == 0
  {
    assert chunks[..1] == [chunks[0]] && Flatten([chunks[0]]) == chunks[0] by { FlattenOne(chunks[0]); }
  }

  /** Of the messages that are whole, all have been taken exactly when the events keep up. */
  lemma {:induction false} TakenAllIff(wire: seq<Bytes>, pending: nat, chunks: seq<Bytes>)
    ensures Taken(wire, pending, chunks) == Whole(wire, Here(pending, chunks, |chunks|)) <==> KeepsUp(wire, pending, chunks)
    decreases chunks
  {
    hide KeepsUp, Here, Whole;
    if chunks == [] {
      NothingToKeepUp(wire, pending);
    } else if wire != [] && |wire[0]| <= pending + |chunks[0]| {
      KeepsUpTaken(wire, pending, chunks);
      ShiftTaken(wire, pending, chunks, |chunks|);
      TakenAllIff(wire[1..], pending + |chunks[0]| - |wire[0]|, chunks[1..]);
    } else {
      KeepsUpWaiting(wire, pending, chunks);
      HereShift(pending, chunks, |chunks|);
      TakenAllIff(wire, pending + |chunks[0]|, chunks[1..]);
    }
  }

  lemma {:induction false} NothingToKeepUp(wire: seq<Bytes>, pending: nat)
    ensures KeepsUp(wire, pending, []) <==> Whole(wire, Here(pending, [], 0)) == 0
  {
    var none: seq<Bytes> := [];
    assert EnoughFrom(wire, pending, none, 0) <==> Whole(wire, Here(pending, none, 0)) == 0;
  }

  /**
   At most one message is taken at each event, so a run without loss may still leave whole messages
   behind.  It has decoded every message that has wholly arrived if and only if the events keep up:
   the messages whole at the end are no more than those whole after the j-th event, none for j = 0,
   and one for each event after it, for every j.
   */
  lemma {:induction false} EverythingTakenIff(s: Server, ms: seq<Message>, chunks: seq<Bytes>, tail: Bytes)
    requires s.conn.Pending() + Flatten(chunks) + tail == Flatten(EncodeAll(ms))
    requires AllServed(s.handlers, ms) && AllReady(s.handlers) && Clean(s, chunks)
    ensures var wire, pending := EncodeAll(ms), |s.conn.Pending()|;
      Serve(s, chunks).decoded == s.decoded + ms[..Whole(wire, pending + |Flatten(chunks)|)] <==> KeepsUp(wire, pending, chunks)
  {
    hide Serve, Flatten, Conn.Pending, EncodeAll, AllServed, AllReady, Clean, KeepsUp, Whole, Taken;
    var wire, pending := EncodeAll(ms), |s.conn.Pending()|;
    CleanDelivers(s, ms, chunks, tail);
    TakenAllIff(wire, pending, chunks);
    assert chunks[..|chunks|] == chunks;
    var k, n := Taken(wire, pending, chunks), Whole(wire, pending + |Flatten(chunks)|);
    if s.decoded + ms[..k] == s.decoded + ms[..n] {
      assert |s.decoded + ms[..k]| == |s.decoded| + k && |s.decoded + ms[..n]| == |s.decoded| + n;
    }
  }

  /** Two messages that arrive together: the second waits for a read event that may never come. */
  lemma {:induction false} TwoTogether(s: Server, a: Message, b: Message)
    requires s.conn == Conn([], []) && AllServed(s.handlers, [a, b]) && AllReady(s.handlers)
    ensures var end := Serve(s, [Encode(a) + Encode(b)]);
      end.decoded == s.decoded + [a] && end.conn.Pending() == Encode(b)
  {
    hide Serve, Encode, AllServed, AllReady, Conn.Pending, Flatten;
    var both := Encode(a) + Encode(b);
    var ms := [a, b];
    TwoOnTheWire(a, b);
    FlattenOne(both);
    NoBytes(s.conn);
    assert [] + both + [] == both;
    assert Clean(s, [both]) by { OneIsClean(s, both); }
    CleanDelivers(s, ms, [both], []);
    assert ms[..1] == [a] && EncodeAll(ms)[1..] == [Encode(b)];
    FlattenOne(Encode(b));
    OneTaken(EncodeAll(ms), both);
    var p := Serve(s, [both]).conn.Pending();
    assert p + [] == p;
  }

  lemma {:induction false} NoBytes(c: Conn)
    requires c == Conn([], [])
    ensures c.Pending() == []
  {
  }

  lemma {:induction false} OneIsClean(s: Server, chunk: Bytes)
    requires |s.conn.incomplete| != SIZE_WIDTH
    ensures Clean(s, [chunk])
  {
    hide Step;
    assert [chunk][1..] == [];
    assert Clean(Step(s, chunk), []);
  }

  lemma {:induction false} OneTaken(wire: seq<Bytes>, chunk: Bytes)
    requires wire != [] && |wire[0]| <= |chunk|
    ensures Taken(wire, 0, [chunk]) == 1
  {
    assert [chunk][1..] == [];
    assert Taken(wire[1..], |chunk| - |wire[0]|, []) == 0;
  }

  lemma {:induction false} TwoOnTheWire(a: Message, b: Message)
    ensures EncodeAll([a, b]) == [Encode(a), Encode(b)] && Flatten(EncodeAll([a, b])) == Encode(a) + Encode(b)
  {
    hide Encode;
    assert [a, b][1..] == [b] && [b][1..] == [];
    assert EncodeAll([b]) == [Encode(b)] + EncodeAll([]);
    assert EncodeAll([a, b]) == [Encode(a)] + EncodeAll([b]);
    FlattenAppend([Encode(a)], [Encode(b)]);
    FlattenOne(Encode(a));
    FlattenOne(Encode(b));
  }

  /**
   The bad state is reached by an ordinary split: a message whose first eight bytes arrive alone
   is never delivered, for any message.
   */
  lemma {:induction false} SplitAtLengthLosesMessage(m: Message, handlers: map<Bytes, Handler>)
    requires Total(m) < SIZE_LIMIT
    ensures var s := Server(Conn([], []), handlers, [], []);
      var end := Serve(s, [Encode(m)[..8], Encode(m)[8..]]);
      Encode(m)[..8] + Encode(m)[8..] == Encode(m) && end.frames == [] && |end.conn.Pending()| == |Encode(m)| - 8
  {
    hide Encode, Total, Drain, Dispatch;
    EncodeLength(m);
    EncodeStartsWithTotal(m);
    var e := Encode(m);
    var (a, b) := (e[..8], e[8..]);
    assert a + b == e;
    var s := Server(Conn([], []), handlers, [], []);
    FirstEight(a, |e|);
    var c1 := Conn(a, []);
    assert OnRead(s.conn, a) == (None, c1);
    assert Step(s, a) == s.(conn := c1);
    RestAfterEight(a, b);
    var s2 := Step(s.(conn := c1), b);
    assert [a, b][1..] == [b] && [b][1..] == [];
    assert Serve(s, [a, b]) == Serve(Step(s, a), [b]) == Serve(s2, []) == s2;
  }

  lemma {:induction false} FirstEight(a: Bytes, len: nat)
    requires |a| == 8 && ValueOf(a) == len && len > 8
    ensures OnRead(Conn([], []), a) == (None, Conn(a, []))
  {
    assert [] + [a] == [a] && [a][1..] == [] && [] + a == a && a[..8] == a;
    assert TryGet(Conn([], [a]), 8, false) == (a, Conn(a, []));
    assert TryGet(Conn(a, []), len, true) == ([], Conn(a, []));
  }

  lemma {:induction false} RestAfterEight(a: Bytes, b: Bytes)
    requires |a| == 8 && ValueOf(a) == |a| + |b| && |b| > 0
    ensures OnRead(Conn(a, []), b).0 == None && OnRead(Conn(a, []), b).1.Pending() == b
  {
    assert [] + [b] == [b] && [b][1..] == [] && [] + b == b;
    var c1 := Conn([], [b]);
    assert TryGet(Conn(a, [b]), 8, false) == (a, c1);
    assert Flatten([b]) == b + Flatten([b][1..]) == b;
    TryGetMeets(c1, |a| + |b|, true);
  }
}
