/**
 The read event as the program runs it: the buffer reads, the connection yields at most one
 frame, and the object registered for the frame's name is overwritten with it.  Proved to be
 one step of the server of Framing, so the end-to-end theorem holds of the objects.
 */
module LoginMessageOp {
  import opened Codec
  import opened Framing
  import IOBuffer
  import MessageObject

  /** The bytes cannot be decoded: the program would read outside them or throw. */
  predicate Garbled(handlers: map<Bytes, Handler>, frame: Bytes) {
    match Receive(Fresh(HEARTBEAT), HEARTBEAT, frame)
    case None => true
    case Some(base) =>
      base.name in handlers && |handlers[base.name].receiver.fields| == |handlers[base.name].kinds|
      && Receive(handlers[base.name].receiver, handlers[base.name].kinds, frame).None?
  }

  /** The event takes a frame that cannot be decoded. */
  predicate BreaksOn(handlers: map<Bytes, Handler>, before: Conn, chunk: Bytes) {
    var o := OnRead(before, chunk).0;
    o.Some? && Garbled(handlers, o.value)
  }

  /** What a read event leads to. */
  datatype After = Going | Breaking | Closing | Erring

  class MessageOp {
    const conn: TcpConnection
    const messageTypes: map<Bytes, MessageObject.BaseMessage>
    ghost var frames: seq<Bytes>
    ghost var decoded: seq<Message>

    ghost function Handlers(): (hs: map<Bytes, Handler>)
      reads messageTypes.Values
      ensures hs.Keys == messageTypes.Keys
      ensures forall n :: n in messageTypes ==>
        hs[n].kinds == messageTypes[n].kinds && hs[n].receiver.fields == messageTypes[n].members
    {
      map name | name in messageTypes :: Handler(messageTypes[name].kinds, messageTypes[name].Held())
    }

    ghost function State(): Server
      reads this, conn, conn.inputBuffer, messageTypes.Values
    {
      Server(conn.State(), Handlers(), frames, decoded)
    }

    /** Each name has an object of its own, with one member for each kind. */
    ghost predicate Valid()
      reads this, conn, conn.inputBuffer, messageTypes.Values
    {
      && conn.inputBuffer.State().Sane()
      && (forall n, n' :: n in messageTypes && n' in messageTypes && n != n' ==> messageTypes[n] != messageTypes[n'])
      && (forall n :: n in messageTypes ==> |messageTypes[n].members| == |messageTypes[n].kinds|)
    }

    constructor (conn: TcpConnection, messageTypes: map<Bytes, MessageObject.BaseMessage>)
      ensures this.conn == conn && this.messageTypes == messageTypes && frames == [] && decoded == []
    {
      this.conn, this.messageTypes := conn, messageTypes;
      frames, decoded := [], [];
    }

    /** Decodes into the object of a name; the objects of the other names keep what they hold. */
    method Overwrite(msgType: Bytes, msg: Bytes) returns (got: Message, ok: bool)
      requires Valid() && msgType in messageTypes
      modifies messageTypes.Values
      ensures Valid()
      ensures var h := old(Handlers())[msgType];
        match Receive(h.receiver, h.kinds, msg)
        case None => !ok
        case Some(r) =>
          ok && got == Message(r.name, r.fields) && Handlers() == old(Handlers())[msgType := Handler(h.kinds, r)]
    {
      hide Receive;
      var typed := messageTypes[msgType];
      ok := typed.Deserialize(msg);
      got := Message(typed.msgName, typed.members);
    }

    /** The base decode: a heartbeat object of its own reads the name. */
    method NameOf(msg: Bytes) returns (name: Bytes, ok: bool)
      ensures match Receive(Fresh(HEARTBEAT), HEARTBEAT, msg)
        case None => !ok
        case Some(r) => ok && name == r.name
    {
      hide Receive, Fresh;
      var baseMsg := new MessageObject.BaseMessage(HEARTBEAT);
      ok := baseMsg.Deserialize(msg);
      name := baseMsg.msgName;
    }

    /** False where the frame cannot be decoded. */
    method HandleFrame(msg: Bytes) returns (ok: bool)
      requires Valid()
      modifies this, messageTypes.Values
      ensures Valid() && frames == old(frames) + [msg] && ok == !Garbled(old(Handlers()), msg)
      ensures ok ==>
        var (got, handlers) := Dispatch(old(Handlers()), msg);
        Handlers() == handlers && decoded == old(decoded) + if got.Some? then [got.value] else []
    {
      hide Receive, Fresh, Handlers;
      frames := frames + [msg];
      var msgType;
      msgType, ok := NameOf(msg);
      if !ok { return; }
      assert Handlers() == old(Handlers());
      if msgType !in messageTypes {
        assert decoded + [] == decoded;
        return;
      }
      var got;
      got, ok := Overwrite(msgType, msg);
      if ok { decoded := decoded + [got]; }
    }

    /** What a read event runs once the chunk is queued; false where its frame cannot be decoded. */
    method MessageFunc(ghost chunk: Bytes, ghost before: Conn) returns (ok: bool)
      requires Valid() && conn.State() == before.(queue := before.queue + [chunk])
      modifies this, conn, conn.inputBuffer`dataQueue, messageTypes.Values
      ensures Valid() && ok == !BreaksOn(old(Handlers()), before, chunk)
      ensures ok ==> State() == Step(old(State()).(conn := before), chunk)
    {
      hide Handlers, Garbled, Dispatch, TryGet, ValueOf;
      ok := true;
      var msg := conn.GetMessage(SIZE_WIDTH, false);
      if msg == [] {
        return;
      }
      var len := ValueOf(msg);
      if len >= SIZE_WIDTH {
        msg := conn.GetMessage(len, true);
        if msg != [] {
          ok := HandleFrame(msg);
        }
      }
    }

    /** A read event of the connection: the end of the stream closes it, and a failed read is reported. */
    method ReadFunc(outcome: IOBuffer.Outcome) returns (after: After)
      requires Valid() && (outcome.Delivered? ==> |outcome.bytes| <= IOBuffer.MAX_SIZE)
      modifies this, conn, conn.inputBuffer, messageTypes.Values
      ensures outcome.Failed? ==> after == Erring && Valid() && State() == old(State())
      ensures outcome.Delivered? && outcome.bytes == [] ==> after == Closing && State() == old(State())
      ensures outcome.Delivered? && outcome.bytes != [] ==>
        && Valid()
        && after == (if BreaksOn(old(Handlers()), old(conn.State()), outcome.bytes) then Breaking else Going)
        && (after == Going ==> State() == Step(old(State()), outcome.bytes))
    {
      ghost var before := conn.State();
      var n := conn.inputBuffer.Read(outcome);
      if n > 0 {
        var ok := MessageFunc(outcome.bytes, before);
        after := if ok then Going else Breaking;
      } else if n == 0 {
        after := Closing;
      } else {
        after := Erring;
      }
    }
  }
}
