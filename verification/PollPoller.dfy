/**
 The table of watched descriptors behind poll.  The slots handed to poll and the indices kept in the
 handlers point at each other; a slot is removed by moving the last one into its place.  A slot
 whose handler wants no event holds the descriptor as -fd - 1, which poll skips.
 */
module PollPoller {
  datatype Option<T> = None | Some(value: T)

  datatype Pollfd = Pollfd(fd: int, events: nat, revents: nat)

  /** The slots, and for each registered descriptor the index its handler holds. */
  datatype Poll = Poll(slots: seq<Pollfd>, index: map<int, int>)

  function Negated(fd: int): int { -fd - 1 }

  function FdOf(slot: Pollfd): int { if slot.fd < 0 then Negated(slot.fd) else slot.fd }

  function SlotFor(fd: int, events: nat): Pollfd { Pollfd(if events == 0 then Negated(fd) else fd, events, 0) }

  // ---- the operations, given the index that the handler passed in holds ----

  /** A descriptor that is registered already keeps its first handler. */
  function Registered(p: Poll, fd: int, index: int): Poll {
    if fd in p.index then p else p.(index := p.index[fd := index])
  }

  /** None: the index is past the slots, and the access throws. */
  function Updated(p: Poll, fd: int, index: int, events: nat): Option<Poll> {
    if fd !in p.index then Some(p)
    else if index < 0 then Some(Poll(p.slots + [Pollfd(fd, events, 0)], p.index[fd := |p.slots|]))
    else if index >= |p.slots| then None
    else Some(p.(slots := p.slots[index := SlotFor(fd, events)]))
  }

  /** None: the last slot's descriptor has no handler any more. */
  function Removed(p: Poll, fd: int, index: int): Option<Poll> {
    if fd !in p.index || index < 0 || index >= |p.slots| then Some(p)
    else
      var last := |p.slots| - 1;
      var rest := p.index - {fd};
      if index == last then Some(Poll(p.slots[..last], rest))
      else
        var lastFd := FdOf(p.slots[last]);
        if lastFd !in rest then None
        else Some(Poll(p.slots[index := p.slots[last]][..last], rest[lastFd := index]))
  }

  // ---- what the table means ----

  /** Slots and indices are inverse to each other. */
  predicate Inv(p: Poll) {
    && (forall fd <- p.index :: SlotHeld(p, fd))
    && (forall i :: 0 <= i < |p.slots| ==> IndexHeld(p, i))
  }

  predicate SlotHeld(p: Poll, fd: int)
    requires fd in p.index
  {
    fd >= 0 && p.index[fd] < |p.slots| && (p.index[fd] >= 0 ==> FdOf(p.slots[p.index[fd]]) == fd)
  }

  predicate IndexHeld(p: Poll, i: nat)
    requires i < |p.slots|
  {
    FdOf(p.slots[i]) in p.index && p.index[FdOf(p.slots[i])] == i
  }

  /** What poll is asked about a descriptor; a muted one is skipped. */
  datatype Interest = Interest(events: nat, muted: bool)

  function InterestIn(slot: Pollfd): Interest { Interest(slot.events, slot.fd < 0) }

  function Watched(p: Poll): map<int, Interest> {
    map fd | fd in p.index && 0 <= p.index[fd] < |p.slots| :: InterestIn(p.slots[p.index[fd]])
  }

  /** Registering watches nothing yet, and disturbs nothing. */
  lemma {:induction false} RegisterKeepsIff(p: Poll, fd: int, index: int)
    requires Inv(p) && fd >= 0
    ensures Inv(Registered(p, fd, index)) <==> fd in p.index || index < 0
    ensures index < 0 ==> Watched(Registered(p, fd, index)) == Watched(p)
  {
    var q := Registered(p, fd, index);
    if fd !in p.index {
      if index < 0 {
        forall i | 0 <= i < |q.slots| ensures IndexHeld(q, i) { assert IndexHeld(p, i); }
        forall g | g in q.index ensures SlotHeld(q, g) {
          if g != fd { assert SlotHeld(p, g); }
        }
      } else if index < |p.slots| {
        assert IndexHeld(p, index);
        assert !SlotHeld(q, fd);
      } else {
        assert !SlotHeld(q, fd);
      }
    }
  }

  /** Updating through the registered handler sets this descriptor's interest and no other. */
  lemma {:induction false} UpdateMeets(p: Poll, fd: int, events: nat)
    requires Inv(p) && fd in p.index
    ensures var q := Updated(p, fd, p.index[fd], events);
      && q.Some? && Inv(q.value) && q.value.index.Keys == p.index.Keys
      && Watched(q.value) == Watched(p)[fd := Interest(events, events == 0 && p.index[fd] >= 0)]
  {
    assert SlotHeld(p, fd);
    var q := Updated(p, fd, p.index[fd], events).value;
    forall i | 0 <= i < |q.slots| ensures IndexHeld(q, i) {
      if i < |p.slots| { assert IndexHeld(p, i); }
    }
    forall g | g in q.index ensures SlotHeld(q, g) {
      assert SlotHeld(p, g);
    }
    UpdateWatches(p, q, fd, events);
  }

  lemma {:induction false} UpdateWatches(p: Poll, q: Poll, fd: int, events: nat)
    requires Inv(p) && fd in p.index && Updated(p, fd, p.index[fd], events) == Some(q)
    ensures Watched(q) == Watched(p)[fd := Interest(events, events == 0 && p.index[fd] >= 0)]
  {
    assert SlotHeld(p, fd);
    forall g | g in p.index ensures g in Watched(q) <==> g in Watched(p) || g == fd
      ensures g in Watched(p) && g != fd ==> Watched(q)[g] == Watched(p)[g]
    {
      assert SlotHeld(p, g);
    }
  }

  /** The slot the system reads: the descriptor, or its complement while nothing is asked for, and no events returned yet. */
  lemma {:induction false} UpdateWrites(p: Poll, fd: int, events: nat)
    requires Inv(p) && fd in p.index
    ensures Updated(p, fd, p.index[fd], events).Some?
    ensures var q, at := Updated(p, fd, p.index[fd], events).value, p.index[fd];
      if at < 0 then q.slots == p.slots + [Pollfd(fd, events, 0)] && q.index[fd] == |p.slots|
      else q.slots == p.slots[at := Pollfd(if events == 0 then -1 - fd else fd, events, 0)] && q.index == p.index
  {
    assert SlotHeld(p, fd);
  }

  /** Removing moves at most one other descriptor: the one of the last slot, into the slot set free. */
  lemma {:induction false} RemoveMovesLast(p: Poll, fd: int)
    requires Inv(p) && fd in p.index && p.index[fd] >= 0
    ensures var r, at, last := Removed(p, fd, p.index[fd]), p.index[fd], |p.slots| - 1;
      && at <= last && r.Some? && r.value.slots == p.slots[at := p.slots[last]][..last]
      && (forall g :: g in r.value.index <==> g in p.index && g != fd)
      && (forall g :: g in r.value.index ==> r.value.index[g] == if p.index[g] == last then at else p.index[g])
  {
    LastIsHeld(p, fd);
    var at, last := p.index[fd], |p.slots| - 1;
    assert IndexHeld(p, last);
    forall g | g in p.index && p.index[g] == last ensures g == FdOf(p.slots[last]) { assert SlotHeld(p, g); }
    if at == last { assert p.slots[at := p.slots[last]] == p.slots; }
  }

  /** The last slot belongs to a registered descriptor, and to another one unless it is the slot removed. */
  lemma {:induction false} LastIsHeld(p: Poll, fd: int)
    requires Inv(p) && fd in p.index && p.index[fd] >= 0
    ensures p.index[fd] < |p.slots|
    ensures var lastFd := FdOf(p.slots[|p.slots| - 1]);
      && lastFd in p.index && p.index[lastFd] == |p.slots| - 1
      && (lastFd == fd <==> p.index[fd] == |p.slots| - 1)
  {
    assert SlotHeld(p, fd);
    assert IndexHeld(p, |p.slots| - 1);
  }

  lemma {:induction false} RemoveKeepsInv(p: Poll, fd: int, q: Poll)
    requires Inv(p) && fd in p.index && p.index[fd] >= 0 && Removed(p, fd, p.index[fd]) == Some(q)
    ensures Inv(q)
  {
    LastIsHeld(p, fd);
    assert IndexHeld(p, p.index[fd]);
    assert IndexHeld(p, |p.slots| - 1);
    forall i | 0 <= i < |q.slots| ensures IndexHeld(q, i) {
      assert IndexHeld(p, i);
    }
    forall g | g in q.index ensures SlotHeld(q, g) {
      assert SlotHeld(p, g);
    }
  }

  lemma {:induction false} RemoveWatches(p: Poll, fd: int, q: Poll)
    requires Inv(p) && fd in p.index && p.index[fd] >= 0 && Removed(p, fd, p.index[fd]) == Some(q)
    ensures Watched(q) == Watched(p) - {fd}
  {
    LastIsHeld(p, fd);
    forall g | g in p.index ensures g in Watched(q) <==> g in Watched(p) && g != fd
      ensures g in Watched(q) ==> Watched(q)[g] == Watched(p)[g]
    {
      assert SlotHeld(p, g);
    }
  }

  /** Removing takes this descriptor out and leaves every other interest as it was. */
  lemma {:induction false} RemoveMeets(p: Poll, fd: int)
    requires Inv(p) && fd in p.index
    ensures var q := Removed(p, fd, p.index[fd]);
      && q.Some? && Inv(q.value) && Watched(q.value) == Watched(p) - {fd}
      && q.value.index.Keys == p.index.Keys - (if p.index[fd] >= 0 then {fd} else {})
  {
    hide Inv;
    if p.index[fd] >= 0 {
      LastIsHeld(p, fd);
      var q := Removed(p, fd, p.index[fd]).value;
      RemoveKeepsInv(p, fd, q);
      RemoveWatches(p, fd, q);
    } else {
      assert Watched(p) == Watched(p) - {fd};
    }
  }

  /**
   When the handler passed to update is not the registered one, or was removed before: the table
   survives exactly when both agree on the slot, or both have none.
   */
  lemma {:induction false} UpdateKeepsIff(p: Poll, fd: int, index: int, events: nat)
    requires Inv(p) && fd in p.index
    ensures var q := Updated(p, fd, index, events);
      (q.Some? && Inv(q.value)) <==> (index == p.index[fd] || (index < 0 && p.index[fd] < 0))
  {
    assert SlotHeld(p, fd);
    var own := p.index[fd];
    if index == own || (index < 0 && own < 0) {
      UpdateMeets(p, fd, events);
    } else {
      var q := Updated(p, fd, index, events);
      if index < 0 {
        assert !IndexHeld(q.value, own);
      } else if index < |p.slots| {
        assert IndexHeld(p, index);
        assert !IndexHeld(q.value, index);
      }
    }
  }

  /** The same for remove; an index that names no slot makes it do nothing. */
  lemma {:induction false} RemoveKeepsIff(p: Poll, fd: int, index: int)
    requires Inv(p) && fd in p.index
    ensures var q := Removed(p, fd, index);
      (q.Some? && Inv(q.value)) <==> (index == p.index[fd] || index < 0 || index >= |p.slots|)
  {
    assert SlotHeld(p, fd);
    var own := p.index[fd];
    if index == own {
      RemoveMeets(p, fd);
    } else if 0 <= index < |p.slots| {
      var q := Removed(p, fd, index);
      assert IndexHeld(p, index) && IndexHeld(p, |p.slots| - 1);
      if q.Some? {
        if own >= 0 {
          assert !IndexHeld(q.value, own);
        } else {
          assert !SlotHeld(q.value, FdOf(p.slots[index]));
        }
      }
    }
  }

  // ---- any run ----

  datatype Op = Registering(fd: nat) | Updating(fd: nat, events: nat) | Removing(fd: nat)

  /** An operation through a new handler, or through the registered one. */
  function Do(p: Poll, op: Op): Option<Poll> {
    match op
    case Registering(fd) => Some(Registered(p, fd, -1))
    case Updating(fd, events) => Updated(p, fd, if fd in p.index then p.index[fd] else -1, events)
    case Removing(fd) => Removed(p, fd, if fd in p.index then p.index[fd] else -1)
  }

  function Run(p: Poll, ops: seq<Op>): Option<Poll>
    decreases ops
  {
    if ops == [] then Some(p)
    else
      var q := Do(p, ops[0]);
      if q.None? then None else Run(q.value, ops[1..])
  }

  /** The same run over the registered descriptors and their interests alone. */
  datatype Spec = Spec(registered: set<int>, watched: map<int, Interest>)

  function DoSpec(s: Spec, op: Op): Spec {
    match op
    case Registering(fd) => s.(registered := s.registered + {fd})
    case Updating(fd, events) =>
      if fd !in s.registered then s
      else s.(watched := s.watched[fd := Interest(events, events == 0 && fd in s.watched)])
    case Removing(fd) => if fd in s.watched then Spec(s.registered - {fd}, s.watched - {fd}) else s
  }

  function RunSpec(s: Spec, ops: seq<Op>): Spec
    decreases ops
  {
    if ops == [] then s else RunSpec(DoSpec(s, ops[0]), ops[1..])
  }

  function SpecOf(p: Poll): Spec { Spec(p.index.Keys, Watched(p)) }

  lemma {:induction false} DoRefines(p: Poll, op: Op)
    requires Inv(p)
    ensures var q := Do(p, op); q.Some? && Inv(q.value) && SpecOf(q.value) == DoSpec(SpecOf(p), op)
  {
    hide Inv, Watched, Registered, Updated, Removed;
    match op
    case Registering(fd) =>
      RegisterKeepsIff(p, fd, -1);
      RegisterKeys(p, fd, -1);
    case Updating(fd, events) =>
      WatchedKeys(p, fd);
      if fd in p.index { UpdateMeets(p, fd, events); } else { Unregistered(p, fd, -1, events); }
    case Removing(fd) =>
      WatchedKeys(p, fd);
      if fd in p.index {
        RemoveMeets(p, fd);
        if fd !in Watched(p) { assert Watched(p) - {fd} == Watched(p); }
      } else {
        Unregistered(p, fd, -1, 0);
      }
  }

  lemma {:induction false} RegisterKeys(p: Poll, fd: int, index: int)
    ensures Registered(p, fd, index).index.Keys == p.index.Keys + {fd}
  {
  }

  lemma {:induction false} WatchedKeys(p: Poll, fd: int)
    requires Inv(p)
    ensures fd in Watched(p) <==> fd in p.index && p.index[fd] >= 0
  {
  }

  /** Nothing happens to a descriptor that is not registered. */
  lemma {:induction false} Unregistered(p: Poll, fd: int, index: int, events: nat)
    requires fd !in p.index
    ensures Updated(p, fd, index, events) == Some(p) && Removed(p, fd, index) == Some(p)
  {
  }

  /**
   Any run of register, update and remove through handlers that are never used again after removal:
   nothing throws, slots and indices stay inverse, and the table is that of the interests alone.
   */
  lemma {:induction false} RunRefines(p: Poll, ops: seq<Op>)
    requires Inv(p)
    ensures var q := Run(p, ops); q.Some? && Inv(q.value) && SpecOf(q.value) == RunSpec(SpecOf(p), ops)
    decreases ops
  {
    hide Inv, Watched, Do, DoSpec, SpecOf;
    if ops != [] {
      DoRefines(p, ops[0]);
      RunRefines(Do(p, ops[0]).value, ops[1..]);
    }
  }

  /** After any run that ends with removing a descriptor, poll is not asked about it. */
  lemma {:induction false} RemovedIsGone(p: Poll, ops: seq<Op>, fd: nat)
    requires Inv(p)
    requires ops != [] && ops[|ops| - 1] == Removing(fd)
    ensures var q := Run(p, ops); q.Some? && Inv(q.value) && fd !in Watched(q.value)
  {
    hide Watched, Inv, Do;
    RunRefines(p, ops);
    RunSpecSplits(SpecOf(p), ops);
  }

  lemma {:induction false} RunSpecSplits(s: Spec, ops: seq<Op>)
    requires ops != []
    ensures RunSpec(s, ops) == DoSpec(RunSpec(s, ops[..|ops| - 1]), ops[|ops| - 1])
    decreases ops
  {
    hide DoSpec;
    if |ops| > 1 {
      RunSpecSplits(DoSpec(s, ops[0]), ops[1..]);
      assert ops[1..][..|ops| - 2] == ops[..|ops| - 1][1..];
    } else {
      assert ops[..|ops| - 1] == [];
    }
  }

  // ---- the objects ----

  class EventHandler {
    const fd: nat
    var events: nat
    var index: int

    constructor (fd: nat)
      ensures this.fd == fd && events == 0 && index == -1
    {
      this.fd := fd;
      events := 0;
      index := -1;
    }
  }

  class Poller {
    var pollfds: seq<Pollfd>
    var handlers: map<int, EventHandler>

    ghost function Value(): Poll
      reads this, handlers.Values
    {
      Poll(pollfds, map fd | fd in handlers :: handlers[fd].index)
    }

    ghost predicate Valid()
      reads this, handlers.Values
    {
      Inv(Value()) && forall fd <- handlers :: handlers[fd].fd == fd
    }

    constructor ()
      ensures Valid() && Value() == Poll([], map[]) && handlers == map[]
    {
      pollfds := [];
      handlers := map[];
    }

    method RegisterEventHandler(h: EventHandler)
      requires Valid()
      modifies this`handlers
      ensures Value() == Registered(old(Value()), h.fd, h.index)
      ensures Valid() <==> h.fd in old(handlers) || h.index < 0
      ensures handlers == if h.fd in old(handlers) then old(handlers) else old(handlers)[h.fd := h]
    {
      RegisterKeepsIff(Value(), h.fd, h.index);
      if h.fd !in handlers {
        handlers := handlers[h.fd := h];
        assert Value().index == old(Value()).index[h.fd := h.index];
      }
    }

    method RegisterFd(fd: nat)
      requires Valid()
      modifies this`handlers
      ensures Valid() && Value() == Registered(old(Value()), fd, -1)
      ensures fd in handlers && (fd in old(handlers) ==> handlers == old(handlers))
      ensures fd !in old(handlers) ==> handlers == old(handlers)[fd := handlers[fd]] && fresh(handlers[fd])
    {
      var h := new EventHandler(fd);
      RegisterEventHandler(h);
    }

    /** False where the index is past the slots, and the access throws. */
    method Update(h: EventHandler) returns (ok: bool)
      requires Valid()
      modifies this`pollfds, this`handlers, h`index
      ensures Updated(old(Value()), h.fd, old(h.index), h.events) == if ok then Some(Value()) else None
      ensures !ok ==> Value() == old(Value())
      ensures h.fd in old(handlers) ==>
        (ok && Valid() <==> old(h.index) == old(handlers[h.fd].index) || (old(h.index) < 0 && old(handlers[h.fd].index) < 0))
      ensures h.fd in old(handlers) && old(handlers[h.fd]) == h ==> handlers == old(handlers)
    {
      hide Inv, Watched;
      ghost var p := Value();
      ok := true;
      if h.fd !in handlers { return; }
      UpdateKeepsIff(p, h.fd, h.index, h.events);
      if h.index < 0 {
        pollfds := pollfds + [Pollfd(h.fd, h.events, 0)];
        h.index := |pollfds| - 1;
        handlers := handlers[h.fd := h];
      } else if h.index >= |pollfds| {
        ok := false;
        return;
      } else {
        pollfds := pollfds[h.index := Pollfd(h.fd, h.events, 0)];
        if h.events == 0 { pollfds := pollfds[h.index := pollfds[h.index].(fd := Negated(h.fd))]; }
      }
      ghost var q := Updated(p, h.fd, old(h.index), h.events).value;
      assert forall fd <- old(handlers) :: fd != h.fd ==> handlers[fd] == old(handlers)[fd] && handlers[fd] != h;
      assert Value().index == q.index;
      assert pollfds == q.slots;
    }

    /** False where the last slot's descriptor has no handler any more, and a null pointer is followed. */
    method Remove(h: EventHandler) returns (ok: bool)
      requires Valid()
      modifies this`pollfds, this`handlers, handlers.Values`index
      ensures ok == Removed(old(Value()), h.fd, old(h.index)).Some?
      ensures ok ==> Removed(old(Value()), h.fd, old(h.index)) == Some(Value())
      ensures h.fd in old(handlers) ==>
        (ok && Valid() <==>
          old(h.index) == old(handlers[h.fd].index) || old(h.index) < 0 || old(h.index) >= |old(pollfds)|)
      ensures ok && h.fd in old(handlers) ==>
        handlers == if 0 <= old(h.index) < |old(pollfds)| then old(handlers) - {h.fd} else old(handlers)
    {
      hide Inv, Watched;
      ghost var p := Value();
      ok := true;
      if h.fd !in handlers { return; }
      RemoveKeepsIff(p, h.fd, h.index);
      if h.index < 0 || h.index >= |pollfds| { return; }
      var index := h.index;
      var last := |pollfds| - 1;
      handlers := handlers - {h.fd};
      if index == last {
        pollfds := pollfds[..last];
      } else {
        var lastFd := pollfds[last].fd;
        if lastFd < 0 { lastFd := Negated(lastFd); }
        if lastFd !in handlers {
          ok := false;
          return;
        }
        handlers[lastFd].index := index;
        pollfds := pollfds[index := pollfds[last]][..last];
      }
      ghost var q := Removed(p, h.fd, index).value;
      assert forall g <- q.index :: g in handlers && handlers[g] == old(handlers)[g] && handlers[g].fd == g;
      forall g | g in q.index ensures handlers[g].index == q.index[g] {
        if index < last && g == FdOf(old(pollfds)[last]) { assert handlers[g].index == index; }
      }
      assert Value().index == q.index;
      assert pollfds == q.slots;
    }
  }
}
