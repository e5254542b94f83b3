/**
 The manager of pending messages.  A stream server keeps, for each key and group, the messages
 handed to a consumer and not acknowledged: their holder, how long they have been idle and how
 often they were delivered.  Each pass of the manager visits the holders' messages and gives up
 on those delivered too often, acknowledges those idle for too long, and claims the others that
 have waited for some time for the sibling its table names.

 The server is only this list: a claim sets the holder, resets the idle time and adds one
 delivery; an acknowledgement removes the message from the list.
 */
module PendingMessages {
  type Name = string

  datatype Pending = Pending(key: Name, group: Name, id: Name, consumer: Name, idle: nat, delivered: nat)

  datatype Server = Server(
    groups: map<Name, seq<Name>>, consumers: map<(Name, Name), seq<Name>>,
    pending: seq<Pending>, stored: set<(Name, Name)>)

  datatype Limits = Limits(tolerant: nat, transfer: nat, maxDelivered: nat)

  /** What the manager did to a message, as it was when the manager looked at it. */
  datatype Act = GaveUp(item: Pending) | Acknowledged(item: Pending) | Claimed(item: Pending, to: Name)

  datatype Manager = Manager(server: Server, siblings: map<Name, seq<Name>>, limits: Limits, log: seq<Act>)

  predicate Is(p: Pending, item: Pending) { p.key == item.key && p.group == item.group && p.id == item.id }

  predicate HeldBy(p: Pending, key: Name, group: Name, consumer: Name) {
    p.key == key && p.group == group && p.consumer == consumer
  }

  // ---- the server's commands ----

  function Held(pending: seq<Pending>, key: Name, group: Name, consumer: Name): seq<Pending> {
    if pending == [] then []
    else (if HeldBy(pending[0], key, group, consumer) then [pending[0]] else []) + Held(pending[1..], key, group, consumer)
  }

  function InGroup(pending: seq<Pending>, key: Name, group: Name): seq<Pending> {
    if pending == [] then []
    else
      var mine := if pending[0].key == key && pending[0].group == group then [pending[0]] else [];
      mine + InGroup(pending[1..], key, group)
  }

  /** The first n pending messages of a consumer, in the order of their ids. */
  function GetPending(s: Server, key: Name, group: Name, consumer: Name, n: nat): seq<Pending> {
    var held := Held(s.pending, key, group, consumer);
    if n < |held| then held[..n] else held
  }

  function Without(pending: seq<Pending>, item: Pending): seq<Pending> {
    if pending == [] then []
    else (if Is(pending[0], item) then [] else [pending[0]]) + Without(pending[1..], item)
  }

  function Ack(s: Server, item: Pending): Server { s.(pending := Without(s.pending, item)) }

  function Del(s: Server, item: Pending): Server { s.(stored := s.stored - {(item.key, item.id)}) }

  function HandedOne(p: Pending, item: Pending, to: Name): Pending {
    if Is(p, item) then p.(consumer := to, idle := 0, delivered := p.delivered + 1) else p
  }

  function Handed(pending: seq<Pending>, item: Pending, to: Name): seq<Pending> {
    if pending == [] then []
    else
      [HandedOne(pending[0], item, to)] + Handed(pending[1..], item, to)
  }

  /** A claim by a consumer the group does not have yet makes it one. */
  function Claim(s: Server, item: Pending, to: Name): Server {
    var g := (item.key, item.group);
    var known := if g in s.consumers then s.consumers[g] else [];
    s.(pending := Handed(s.pending, item, to),
       consumers := s.consumers[g := if to in known then known else known + [to]])
  }

  // ---- the manager ----

  /** The order of names in a set. */
  predicate Less(a: Name, b: Name) {
    b != [] && (a == [] || a[0] < b[0] || (a[0] == b[0] && Less(a[1..], b[1..])))
  }

  function Insert(names: seq<Name>, name: Name): seq<Name> {
    if names == [] then [name]
    else if names[0] == name then names
    else if Less(name, names[0]) then [name] + names
    else [names[0]] + Insert(names[1..], name)
  }

  /** The first other name of an entry of the table; the empty name if there is none. */
  function FirstOther(names: seq<Name>, consumer: Name): Name {
    if names == [] then ""
    else if names[0] != consumer then names[0]
    else FirstOther(names[1..], consumer)
  }

  function Sibling(siblings: map<Name, seq<Name>>, group: Name, consumer: Name): Name {
    if group in siblings then FirstOther(siblings[group], consumer) else ""
  }

  function HandleItem(m: Manager, item: Pending): Manager {
    if item.delivered > m.limits.maxDelivered then
      m.(server := Del(Ack(m.server, item), item), log := m.log + [GaveUp(item)])
    else if item.idle > m.limits.tolerant then
      m.(server := Ack(m.server, item), log := m.log + [Acknowledged(item)])
    else if item.idle > m.limits.transfer then
      var sibling := Sibling(m.siblings, item.group, item.consumer);
      if sibling == "" then m
      else m.(server := Claim(m.server, item, sibling), log := m.log + [Claimed(item, sibling)])
    else m
  }

  function HandleItems(m: Manager, items: seq<Pending>): Manager
    decreases items
  {
    if items == [] then m else HandleItems(HandleItem(m, items[0]), items[1..])
  }

  datatype Visit = Visit(key: Name, group: Name, consumer: Name, count: nat)

  function HandleVisits(m: Manager, visits: seq<Visit>): Manager
    decreases visits
  {
    if visits == [] then m
    else
      var v := visits[0];
      HandleVisits(HandleItems(m, GetPending(m.server, v.key, v.group, v.consumer, v.count)), visits[1..])
  }

  /** The groups of a key that have pending messages; every group's siblings start empty. */
  function PendingGroups(s: Server, key: Name, groups: seq<Name>): seq<(Name, Name)> {
    if groups == [] then []
    else (if InGroup(s.pending, key, groups[0]) != [] then [(key, groups[0])] else []) + PendingGroups(s, key, groups[1..])
  }

  function GroupsOf(s: Server, key: Name): seq<Name> { if key in s.groups then s.groups[key] else [] }

  function AllPendingGroups(s: Server, keys: seq<Name>): seq<(Name, Name)> {
    if keys == [] then [] else PendingGroups(s, keys[0], GroupsOf(s, keys[0])) + AllPendingGroups(s, keys[1..])
  }

  function EmptySiblings(siblings: map<Name, seq<Name>>, groups: seq<Name>): map<Name, seq<Name>>
    decreases groups
  {
    if groups == [] then siblings else EmptySiblings(siblings[groups[0] := []], groups[1..])
  }

  function AllEmptySiblings(s: Server, siblings: map<Name, seq<Name>>, keys: seq<Name>): map<Name, seq<Name>>
    decreases keys
  {
    if keys == [] then siblings
    else AllEmptySiblings(s, EmptySiblings(siblings, GroupsOf(s, keys[0])), keys[1..])
  }

  function ConsumersOf(s: Server, g: (Name, Name)): seq<Name> { if g in s.consumers then s.consumers[g] else [] }

  /** The consumers of a group that hold pending messages, with how many. */
  function PendingConsumers(s: Server, g: (Name, Name), consumers: seq<Name>): seq<Visit> {
    if consumers == [] then []
    else
      var held := Held(s.pending, g.0, g.1, consumers[0]);
      (if held != [] then [Visit(g.0, g.1, consumers[0], |held|)] else []) + PendingConsumers(s, g, consumers[1..])
  }

  function AllVisits(s: Server, gs: seq<(Name, Name)>): seq<Visit> {
    if gs == [] then [] else PendingConsumers(s, gs[0], ConsumersOf(s, gs[0])) + AllVisits(s, gs[1..])
  }

  function WithSiblings(siblings: map<Name, seq<Name>>, group: Name, consumers: seq<Name>): map<Name, seq<Name>>
    decreases consumers
  {
    if consumers == [] || group !in siblings then siblings
    else WithSiblings(siblings[group := Insert(siblings[group], consumers[0])], group, consumers[1..])
  }

  function AllSiblings(s: Server, siblings: map<Name, seq<Name>>, gs: seq<(Name, Name)>): map<Name, seq<Name>>
    decreases gs
  {
    if gs == [] then siblings
    else AllSiblings(s, WithSiblings(siblings, gs[0].1, ConsumersOf(s, gs[0])), gs[1..])
  }

  /** One pass: the groups, then their consumers and siblings, then the messages. */
  function Pass(m: Manager, keys: seq<Name>): Manager {
    var gs := AllPendingGroups(m.server, keys);
    var siblings := AllSiblings(m.server, AllEmptySiblings(m.server, m.siblings, keys), gs);
    HandleVisits(m.(siblings := siblings), AllVisits(m.server, gs))
  }

  // ---- what a pass may do ----

  /** Ids are unique within a key and group, as the server keeps them. */
  predicate Unique(pending: seq<Pending>) {
    forall i, j :: 0 <= i < j < |pending| ==> !Is(pending[i], pending[j])
  }

  lemma {:induction false} WithoutHas(pending: seq<Pending>, item: Pending, p: Pending)
    ensures p in Without(pending, item) <==> p in pending && !Is(p, item)
    decreases pending
  {
    if pending != [] { WithoutHas(pending[1..], item, p); }
  }

  lemma {:induction false} WithoutUnique(pending: seq<Pending>, item: Pending)
    requires Unique(pending)
    ensures Unique(Without(pending, item))
    decreases pending
  {
    if pending != [] {
      var rest := Without(pending[1..], item);
      WithoutUnique(pending[1..], item);
      forall j | 0 <= j < |rest| ensures !Is(pending[0], rest[j]) {
        WithoutHas(pending[1..], item, rest[j]);
      }
    }
  }

  lemma {:induction false} HandedShape(pending: seq<Pending>, item: Pending, to: Name)
    ensures |Handed(pending, item, to)| == |pending|
    ensures forall i :: 0 <= i < |pending| ==> Handed(pending, item, to)[i] == HandedOne(pending[i], item, to)
    decreases pending
  {
    if pending != [] { HandedShape(pending[1..], item, to); }
  }

  /** Handling one message leaves every other one exactly as it was. */
  lemma {:induction false} HandleItemKeepsOthers(m: Manager, item: Pending, p: Pending)
    requires Unique(m.server.pending)
    ensures Unique(HandleItem(m, item).server.pending)
    ensures !Is(p, item) ==> (p in HandleItem(m, item).server.pending <==> p in m.server.pending)
  {
    WithoutUnique(m.server.pending, item);
    WithoutHas(m.server.pending, item, p);
    var to := Sibling(m.siblings, item.group, item.consumer);
    HandedShape(m.server.pending, item, to);
    var handed := Handed(m.server.pending, item, to);
    if !Is(p, item) && p in m.server.pending {
      var i :| 0 <= i < |m.server.pending| && m.server.pending[i] == p;
      assert handed[i] == p;
    }
    assert forall i :: 0 <= i < |handed| ==> Is(handed[i], m.server.pending[i]);
  }

  lemma {:induction false} FirstOtherIsOther(names: seq<Name>, consumer: Name)
    ensures FirstOther(names, consumer) == "" || (FirstOther(names, consumer) != consumer && FirstOther(names, consumer) in names)
    decreases names
  {
    if names != [] && names[0] == consumer { FirstOtherIsOther(names[1..], consumer); }
  }

  /** What may stand in the log. */
  predicate Lawful(limits: Limits, act: Act) {
    match act
    case GaveUp(item) => item.delivered > limits.maxDelivered
    case Acknowledged(item) => item.delivered <= limits.maxDelivered && item.idle > limits.tolerant
    case Claimed(item, to) =>
      item.delivered <= limits.maxDelivered && limits.transfer < item.idle <= limits.tolerant && to != item.consumer && to != ""
  }

  predicate AllLawful(m: Manager) { forall i :: 0 <= i < |m.log| ==> Lawful(m.limits, m.log[i]) }

  /** Deliveries that are left before the manager gives a message up, counting the giving up. */
  function Remaining(limits: Limits, p: Pending): nat {
    if p.delivered <= limits.maxDelivered then limits.maxDelivered + 2 - p.delivered else 1
  }

  function TotalRemaining(limits: Limits, pending: seq<Pending>): nat {
    if pending == [] then 0 else Remaining(limits, pending[0]) + TotalRemaining(limits, pending[1..])
  }

  lemma {:induction false} WithoutRemaining(limits: Limits, pending: seq<Pending>, item: Pending)
    ensures TotalRemaining(limits, Without(pending, item)) <= TotalRemaining(limits, pending)
    ensures (exists p :: p in pending && Is(p, item)) ==>
      TotalRemaining(limits, Without(pending, item)) < TotalRemaining(limits, pending)
    decreases pending
  {
    if pending != [] {
      WithoutRemaining(limits, pending[1..], item);
      if !Is(pending[0], item) {
        var rest := Without(pending[1..], item);
        assert ([pending[0]] + rest)[1..] == rest;
        assert (exists p :: p in pending && Is(p, item)) ==> exists p :: p in pending[1..] && Is(p, item);
      } else {
        assert [] + Without(pending[1..], item) == Without(pending[1..], item);
      }
    }
  }

  lemma {:induction false} HandedRemaining(limits: Limits, pending: seq<Pending>, item: Pending, to: Name)
    requires forall p :: p in pending && Is(p, item) ==> p.delivered <= limits.maxDelivered
    ensures TotalRemaining(limits, Handed(pending, item, to)) <= TotalRemaining(limits, pending)
    ensures (exists p :: p in pending && Is(p, item)) ==>
      TotalRemaining(limits, Handed(pending, item, to)) < TotalRemaining(limits, pending)
    decreases pending
  {
    if pending != [] {
      HandedRemaining(limits, pending[1..], item, to);
      var handed := Handed(pending, item, to);
      assert handed[1..] == Handed(pending[1..], item, to);
      if !Is(pending[0], item) {
        assert (exists p :: p in pending && Is(p, item)) ==> exists p :: p in pending[1..] && Is(p, item);
      }
    }
  }

  function Left(m: Manager): nat { TotalRemaining(m.limits, m.server.pending) }

  lemma {:induction false} OnlyOne(pending: seq<Pending>, item: Pending, p: Pending)
    requires Unique(pending) && item in pending && p in pending && Is(p, item)
    ensures p == item
  {
    var i :| 0 <= i < |pending| && pending[i] == item;
    var j :| 0 <= j < |pending| && pending[j] == p;
  }

  /** Handling a message that is as it was seen: either less is left, or nothing changed and it was not overdue. */
  lemma {:induction false} HandleItemProgress(m: Manager, item: Pending)
    requires Unique(m.server.pending) && item in m.server.pending && AllLawful(m)
    ensures var m' := HandleItem(m, item);
      && AllLawful(m') && m'.limits == m.limits && m'.siblings == m.siblings
      && (Left(m') < Left(m) || (m' == m && item.idle <= m.limits.tolerant))
  {
    WithoutRemaining(m.limits, m.server.pending, item);
    assert Is(item, item);
    forall p | p in m.server.pending && Is(p, item) ensures p == item {
      OnlyOne(m.server.pending, item, p);
    }
    if item.delivered <= m.limits.maxDelivered {
      HandedRemaining(m.limits, m.server.pending, item, Sibling(m.siblings, item.group, item.consumer));
    }
    if item.group in m.siblings { FirstOtherIsOther(m.siblings[item.group], item.consumer); }
  }

  predicate AllIn(items: seq<Pending>, pending: seq<Pending>) { forall i :: 0 <= i < |items| ==> items[i] in pending }

  lemma {:induction false} HandleItemsProgress(m: Manager, items: seq<Pending>)
    requires Unique(m.server.pending) && Unique(items) && AllIn(items, m.server.pending) && AllLawful(m)
    ensures var m' := HandleItems(m, items);
      && Unique(m'.server.pending) && AllLawful(m') && m'.limits == m.limits
      && (Left(m') < Left(m) || (m' == m && forall i :: 0 <= i < |items| ==> items[i].idle <= m.limits.tolerant))
    decreases items
  {
    hide HandleItem, Left, Lawful;
    if items != [] {
      var m1 := HandleItem(m, items[0]);
      HandleItemProgress(m, items[0]);
      HandleItemKeepsOthers(m, items[0], items[0]);
      forall i | 0 <= i < |items[1..]| ensures items[1..][i] in m1.server.pending {
        HandleItemKeepsOthers(m, items[0], items[i + 1]);
      }
      HandleItemsProgress(m1, items[1..]);
    }
  }

  lemma {:induction false} HeldHas(pending: seq<Pending>, key: Name, group: Name, consumer: Name, p: Pending)
    ensures p in Held(pending, key, group, consumer) <==> p in pending && HeldBy(p, key, group, consumer)
    decreases pending
  {
    if pending != [] { HeldHas(pending[1..], key, group, consumer, p); }
  }

  lemma {:induction false} HeldUnique(pending: seq<Pending>, key: Name, group: Name, consumer: Name)
    requires Unique(pending)
    ensures Unique(Held(pending, key, group, consumer))
    decreases pending
  {
    if pending != [] {
      var rest := Held(pending[1..], key, group, consumer);
      HeldUnique(pending[1..], key, group, consumer);
      forall j | 0 <= j < |rest| ensures !Is(pending[0], rest[j]) {
        HeldHas(pending[1..], key, group, consumer, rest[j]);
      }
    }
  }

  lemma {:induction false} GetPendingOk(s: Server, v: Visit)
    requires Unique(s.pending)
    ensures var items := GetPending(s, v.key, v.group, v.consumer, v.count); Unique(items) && AllIn(items, s.pending)
  {
    HeldUnique(s.pending, v.key, v.group, v.consumer);
    var held := Held(s.pending, v.key, v.group, v.consumer);
    forall i | 0 <= i < |held| ensures held[i] in s.pending {
      HeldHas(s.pending, v.key, v.group, v.consumer, held[i]);
    }
  }

  /** Visits are made key by key, group by group and consumer by consumer, each with the number of messages then held. */
  lemma {:induction false} VisitsInOrder(s: Server, g: (Name, Name), a: seq<Name>, c: Name, b: seq<Name>)
    ensures PendingConsumers(s, g, a + [c] + b)
         == PendingConsumers(s, g, a)
          + (var n := |Held(s.pending, g.0, g.1, c)|; if n > 0 then [Visit(g.0, g.1, c, n)] else [])
          + PendingConsumers(s, g, b)
    decreases a
  {
    hide Held;
    if a == [] {
      assert a + [c] + b == [c] + b && ([c] + b)[1..] == b;
    } else {
      assert (a + [c] + b)[0] == a[0] && (a + [c] + b)[1..] == a[1..] + [c] + b;
      VisitsInOrder(s, g, a[1..], c, b);
    }
  }

  lemma {:induction false} GroupsInOrder(s: Server, a: seq<(Name, Name)>, g: (Name, Name), b: seq<(Name, Name)>)
    ensures AllVisits(s, a + [g] + b) == AllVisits(s, a) + PendingConsumers(s, g, ConsumersOf(s, g)) + AllVisits(s, b)
    decreases a
  {
    hide PendingConsumers, ConsumersOf;
    if a == [] {
      assert a + [g] + b == [g] + b && ([g] + b)[1..] == b;
    } else {
      assert (a + [g] + b)[0] == a[0] && (a + [g] + b)[1..] == a[1..] + [g] + b;
      GroupsInOrder(s, a[1..], g, b);
    }
  }

  lemma {:induction false} KeysInOrder(s: Server, a: seq<Name>, key: Name, b: seq<Name>)
    ensures AllPendingGroups(s, a + [key] + b)
         == AllPendingGroups(s, a) + PendingGroups(s, key, GroupsOf(s, key)) + AllPendingGroups(s, b)
    decreases a
  {
    hide PendingGroups, GroupsOf;
    if a == [] {
      assert a + [key] + b == [key] + b && ([key] + b)[1..] == b;
    } else {
      assert (a + [key] + b)[0] == a[0] && (a + [key] + b)[1..] == a[1..] + [key] + b;
      KeysInOrder(s, a[1..], key, b);
    }
  }

  /** Where in the list the consumer's messages stand, among the first n places. */
  function Places(pending: seq<Pending>, key: Name, group: Name, consumer: Name, n: nat): seq<nat>
    requires n <= |pending|
  {
    if n == 0 then []
    else Places(pending, key, group, consumer, n - 1) + if HeldBy(pending[n - 1], key, group, consumer) then [n - 1] else []
  }

  lemma PlacesUnfold(pending: seq<Pending>, key: Name, group: Name, consumer: Name, n: nat)
    requires 0 < n <= |pending|
    ensures var rest := Places(pending, key, group, consumer, n - 1);
      Places(pending, key, group, consumer, n)
      == if HeldBy(pending[n - 1], key, group, consumer) then rest + [n - 1] else rest
  {
    var rest := Places(pending, key, group, consumer, n - 1);
    assert rest + [] == rest;
  }

  lemma {:induction false} PlacesRise(pending: seq<Pending>, key: Name, group: Name, consumer: Name, n: nat)
    requires n <= |pending|
    ensures var at := Places(pending, key, group, consumer, n);
      && (forall i :: 0 <= i < |at| ==> at[i] < n)
      && (forall i, j :: 0 <= i < j < |at| ==> at[i] < at[j])
  {
    hide HeldBy;
    if n > 0 {
      PlacesRise(pending, key, group, consumer, n - 1);
      PlacesUnfold(pending, key, group, consumer, n);
    }
  }

  lemma {:induction false} PlacesHave(pending: seq<Pending>, key: Name, group: Name, consumer: Name, n: nat, k: nat)
    requires k < n <= |pending|
    ensures k in Places(pending, key, group, consumer, n) <==> HeldBy(pending[k], key, group, consumer)
  {
    hide HeldBy;
    PlacesRise(pending, key, group, consumer, n - 1);
    PlacesUnfold(pending, key, group, consumer, n);
    if k < n - 1 { PlacesHave(pending, key, group, consumer, n - 1, k); }
  }

  lemma {:induction false} HeldAppend(a: seq<Pending>, p: Pending, key: Name, group: Name, consumer: Name)
    ensures Held(a + [p], key, group, consumer)
         == Held(a, key, group, consumer) + if HeldBy(p, key, group, consumer) then [p] else []
    decreases a
  {
    hide HeldBy;
    if a == [] {
      assert a + [p] == [p] && [p][1..] == [];
    } else {
      var first := if HeldBy(a[0], key, group, consumer) then [a[0]] else [];
      var last := if HeldBy(p, key, group, consumer) then [p] else [];
      assert (a + [p])[0] == a[0] && (a + [p])[1..] == a[1..] + [p];
      HeldAppend(a[1..], p, key, group, consumer);
      assert first + (Held(a[1..], key, group, consumer) + last) == first + Held(a[1..], key, group, consumer) + last;
    }
  }

  lemma {:induction false} HeldAreAt(pending: seq<Pending>, key: Name, group: Name, consumer: Name, n: nat)
    requires n <= |pending|
    ensures var at, held := Places(pending, key, group, consumer, n), Held(pending[..n], key, group, consumer);
      |at| == |held| && forall i :: 0 <= i < |at| ==> at[i] < |pending| && held[i] == pending[at[i]]
  {
    hide HeldBy, Held;
    if n == 0 {
      NoneHeld(key, group, consumer);
    } else {
      HeldAreAt(pending, key, group, consumer, n - 1);
      HeldAppend(pending[..n - 1], pending[n - 1], key, group, consumer);
      assert pending[..n] == pending[..n - 1] + [pending[n - 1]];
    }
  }

  lemma NoneHeld(key: Name, group: Name, consumer: Name)
    ensures Held([], key, group, consumer) == []
  {
  }

  /** What a consumer holds is listed in the order of the whole list. */
  lemma {:induction false} HeldInOrder(pending: seq<Pending>, key: Name, group: Name, consumer: Name) returns (at: seq<nat>)
    ensures var held := Held(pending, key, group, consumer);
      && |at| == |held|
      && (forall i, j :: 0 <= i < j < |at| ==> at[i] < at[j])
      && (forall i :: 0 <= i < |at| ==> at[i] < |pending| && held[i] == pending[at[i]])
      && (forall k :: 0 <= k < |pending| ==> (HeldBy(pending[k], key, group, consumer) <==> k in at))
  {
    hide HeldBy, Held, Places;
    at := Places(pending, key, group, consumer, |pending|);
    PlacesRise(pending, key, group, consumer, |pending|);
    HeldAreAt(pending, key, group, consumer, |pending|);
    assert pending[..|pending|] == pending;
    forall k | 0 <= k < |pending| ensures HeldBy(pending[k], key, group, consumer) <==> k in at {
      PlacesHave(pending, key, group, consumer, |pending|, k);
    }
  }

  /** A visit is shown the first messages of the consumer, as many as were counted before or all there are. */
  lemma {:induction false} ShownFirst(s: Server, v: Visit) returns (at: seq<nat>)
    ensures var items := GetPending(s, v.key, v.group, v.consumer, v.count);
      && |at| == |items| <= v.count
      && (forall i, j :: 0 <= i < j < |at| ==> at[i] < at[j])
      && (forall i :: 0 <= i < |at| ==> at[i] < |s.pending| && items[i] == s.pending[at[i]])
      && (forall k :: 0 <= k < |s.pending| ==>
            (k in at ==> HeldBy(s.pending[k], v.key, v.group, v.consumer))
            && (k !in at && HeldBy(s.pending[k], v.key, v.group, v.consumer) ==>
                  |at| == v.count && forall i :: 0 <= i < |at| ==> at[i] < k))
  {
    hide HeldBy, Held;
    var all := HeldInOrder(s.pending, v.key, v.group, v.consumer);
    at := if v.count < |all| then all[..v.count] else all;
    forall k | 0 <= k < |s.pending| && k !in at && HeldBy(s.pending[k], v.key, v.group, v.consumer)
      ensures |at| == v.count && forall i :: 0 <= i < |at| ==> at[i] < k
    {
      var j :| 0 <= j < |all| && all[j] == k;
    }
  }

  /** The messages a visit sees when nothing has changed since it was planned. */
  predicate Calm(m: Manager, v: Visit) {
    var items := GetPending(m.server, v.key, v.group, v.consumer, v.count);
    forall i :: 0 <= i < |items| ==> items[i].idle <= m.limits.tolerant
  }

  lemma {:induction false} HandleVisitsProgress(m: Manager, visits: seq<Visit>)
    requires Unique(m.server.pending) && AllLawful(m)
    ensures var m' := HandleVisits(m, visits);
      && Unique(m'.server.pending) && AllLawful(m') && m'.limits == m.limits
      && (Left(m') < Left(m) || (m' == m && forall i :: 0 <= i < |visits| ==> Calm(m, visits[i])))
    decreases visits
  {
    hide HandleItems, GetPending, Left, Lawful;
    if visits != [] {
      var v := visits[0];
      var items := GetPending(m.server, v.key, v.group, v.consumer, v.count);
      GetPendingOk(m.server, v);
      HandleItemsProgress(m, items);
      HandleVisitsProgress(HandleItems(m, items), visits[1..]);
    }
  }

  // ---- every pending message is visited ----

  /** Every pending message belongs to a registered key, a listed group and a listed consumer. */
  predicate Covered(s: Server, keys: seq<Name>) {
    forall i :: 0 <= i < |s.pending| ==> CoveredOne(s, keys, s.pending[i])
  }

  predicate CoveredOne(s: Server, keys: seq<Name>, p: Pending) {
    && p.key in keys && p.key in s.groups && p.group in s.groups[p.key]
    && (p.key, p.group) in s.consumers && p.consumer in s.consumers[(p.key, p.group)]
  }

  /** A group is planned exactly when the list holds a message of this key and this group. */
  lemma {:induction false} InGroupIff(pending: seq<Pending>, key: Name, group: Name)
    ensures InGroup(pending, key, group) != [] <==> exists p :: p in pending && p.key == key && p.group == group
    decreases pending
  {
    if pending != [] {
      InGroupIff(pending[1..], key, group);
      assert pending[0] in pending;
    }
  }

  lemma {:induction false} InGroupHas(pending: seq<Pending>, key: Name, group: Name, p: Pending)
    requires p in pending && p.key == key && p.group == group
    ensures InGroup(pending, key, group) != []
    decreases pending
  {
    if p != pending[0] { InGroupHas(pending[1..], key, group, p); }
  }

  lemma {:induction false} GroupIsPlanned(s: Server, key: Name, groups: seq<Name>, p: Pending)
    requires p in s.pending && p.key == key && p.group in groups
    ensures (p.key, p.group) in PendingGroups(s, key, groups)
    decreases groups
  {
    if p.group == groups[0] {
      InGroupHas(s.pending, key, p.group, p);
    } else {
      GroupIsPlanned(s, key, groups[1..], p);
    }
  }

  lemma {:induction false} KeyIsPlanned(s: Server, keys: seq<Name>, p: Pending)
    requires p in s.pending && p.key in keys && p.key in s.groups && p.group in s.groups[p.key]
    ensures (p.key, p.group) in AllPendingGroups(s, keys)
    decreases keys
  {
    if p.key == keys[0] {
      GroupIsPlanned(s, p.key, GroupsOf(s, p.key), p);
    } else {
      KeyIsPlanned(s, keys[1..], p);
    }
  }

  function VisitOf(s: Server, p: Pending): Visit {
    Visit(p.key, p.group, p.consumer, |Held(s.pending, p.key, p.group, p.consumer)|)
  }

  lemma {:induction false} ConsumerIsPlanned(s: Server, g: (Name, Name), consumers: seq<Name>, p: Pending)
    requires p in s.pending && (p.key, p.group) == g && p.consumer in consumers
    ensures VisitOf(s, p) in PendingConsumers(s, g, consumers)
    decreases consumers
  {
    if p.consumer == consumers[0] {
      HeldHas(s.pending, p.key, p.group, p.consumer, p);
    } else {
      ConsumerIsPlanned(s, g, consumers[1..], p);
    }
  }

  lemma {:induction false} VisitIsPlanned(s: Server, gs: seq<(Name, Name)>, p: Pending)
    requires p in s.pending && (p.key, p.group) in gs
    requires (p.key, p.group) in s.consumers && p.consumer in s.consumers[(p.key, p.group)]
    ensures VisitOf(s, p) in AllVisits(s, gs)
    decreases gs
  {
    if (p.key, p.group) == gs[0] {
      ConsumerIsPlanned(s, gs[0], ConsumersOf(s, gs[0]), p);
    } else {
      VisitIsPlanned(s, gs[1..], p);
    }
  }

  /**
   A pass makes progress: either fewer deliveries are left in all, or nothing at all changed
   and every message was looked at and found not overdue.
   */
  lemma {:induction false} PassProgress(m: Manager, keys: seq<Name>)
    requires Unique(m.server.pending) && AllLawful(m) && Covered(m.server, keys)
    ensures var m' := Pass(m, keys);
      && Unique(m'.server.pending) && AllLawful(m') && m'.limits == m.limits
      && (Left(m') < Left(m)
          || (m'.server == m.server && forall p :: p in m.server.pending ==> p.idle <= m.limits.tolerant))
  {
    hide HandleVisits, AllPendingGroups, AllSiblings, AllEmptySiblings, AllVisits, Lawful;
    var s := m.server;
    var gs := AllPendingGroups(s, keys);
    var visits := AllVisits(s, gs);
    var m1 := m.(siblings := AllSiblings(s, AllEmptySiblings(s, m.siblings, keys), gs));
    HandleVisitsProgress(m1, visits);
    if Left(Pass(m, keys)) >= Left(m) {
      forall p | p in s.pending ensures p.idle <= m.limits.tolerant {
        CalmMessage(m1, keys, visits, p);
      }
    }
  }

  lemma {:induction false} CalmMessage(m: Manager, keys: seq<Name>, visits: seq<Visit>, p: Pending)
    requires Covered(m.server, keys) && p in m.server.pending
    requires visits == AllVisits(m.server, AllPendingGroups(m.server, keys))
    requires forall i :: 0 <= i < |visits| ==> Calm(m, visits[i])
    ensures p.idle <= m.limits.tolerant
  {
    var s := m.server;
    assert CoveredOne(s, keys, p);
    KeyIsPlanned(s, keys, p);
    VisitIsPlanned(s, AllPendingGroups(s, keys), p);
    var i :| 0 <= i < |visits| && visits[i] == VisitOf(s, p);
    assert Calm(m, visits[i]);
    HeldHas(s.pending, p.key, p.group, p.consumer, p);
  }

  // ---- coverage and bounds are kept ----

  /** No message is delivered more than once beyond the limit. */
  predicate DeliveriesBounded(m: Manager) {
    forall i :: 0 <= i < |m.server.pending| ==> m.server.pending[i].delivered <= m.limits.maxDelivered + 1
  }

  predicate Kept(m: Manager, keys: seq<Name>) { Unique(m.server.pending) && Covered(m.server, keys) }

  lemma {:induction false} AckKeeps(m: Manager, keys: seq<Name>, item: Pending)
    requires Kept(m, keys)
    ensures Kept(m.(server := Ack(m.server, item)), keys)
    ensures DeliveriesBounded(m) ==> DeliveriesBounded(m.(server := Ack(m.server, item)))
  {
    var pending := Without(m.server.pending, item);
    WithoutUnique(m.server.pending, item);
    forall i | 0 <= i < |pending| ensures pending[i] in m.server.pending {
      WithoutHas(m.server.pending, item, pending[i]);
    }
  }

  lemma {:induction false} ClaimKeeps(m: Manager, keys: seq<Name>, item: Pending, to: Name)
    requires Kept(m, keys) && item in m.server.pending && item.delivered <= m.limits.maxDelivered
    ensures Kept(m.(server := Claim(m.server, item, to)), keys)
    ensures DeliveriesBounded(m) ==> DeliveriesBounded(m.(server := Claim(m.server, item, to)))
  {
    var s, s' := m.server, Claim(m.server, item, to);
    HandedShape(s.pending, item, to);
    forall i | 0 <= i < |s'.pending|
      ensures CoveredOne(s', keys, s'.pending[i])
      ensures DeliveriesBounded(m) ==> s'.pending[i].delivered <= m.limits.maxDelivered + 1
      ensures Is(s'.pending[i], s.pending[i])
    {
      assert CoveredOne(s, keys, s.pending[i]);
      if Is(s.pending[i], item) { OnlyOne(s.pending, item, s.pending[i]); }
    }
  }

  lemma {:induction false} HandleItemKeeps(m: Manager, keys: seq<Name>, item: Pending)
    requires Kept(m, keys) && item in m.server.pending
    ensures Kept(HandleItem(m, item), keys) && HandleItem(m, item).limits == m.limits
    ensures DeliveriesBounded(m) ==> DeliveriesBounded(HandleItem(m, item))
  {
    hide Kept;
    AckKeeps(m, keys, item);
    if item.delivered <= m.limits.maxDelivered { ClaimKeeps(m, keys, item, Sibling(m.siblings, item.group, item.consumer)); }
    KeptIgnores(m, m, keys);
    KeptIgnores(m.(server := Ack(m.server, item)), HandleItem(m, item), keys);
    KeptIgnores(m.(server := Claim(m.server, item, Sibling(m.siblings, item.group, item.consumer))), HandleItem(m, item), keys);
  }

  /** What is kept concerns the list, the groups, the consumers and the limits only. */
  lemma {:induction false} KeptIgnores(m: Manager, m': Manager, keys: seq<Name>)
    ensures Kept(m, keys) && m'.limits == m.limits && m'.server.pending == m.server.pending
      && m'.server.groups == m.server.groups && m'.server.consumers == m.server.consumers
      ==> Kept(m', keys)
  {
  }

  lemma {:induction false} KeptIsUnique(m: Manager, keys: seq<Name>)
    requires Kept(m, keys)
    ensures Unique(m.server.pending)
  {
  }

  lemma {:induction false} HandleItemsKeep(m: Manager, keys: seq<Name>, items: seq<Pending>)
    requires Kept(m, keys) && Unique(items) && AllIn(items, m.server.pending)
    ensures Kept(HandleItems(m, items), keys) && HandleItems(m, items).limits == m.limits
    ensures DeliveriesBounded(m) ==> DeliveriesBounded(HandleItems(m, items))
    decreases items
  {
    hide HandleItem, Kept, DeliveriesBounded;
    if items != [] {
      KeptIsUnique(m, keys);
      HandleItemKeeps(m, keys, items[0]);
      var m1 := HandleItem(m, items[0]);
      forall i | 0 <= i < |items[1..]| ensures items[1..][i] in m1.server.pending {
        HandleItemKeepsOthers(m, items[0], items[i + 1]);
      }
      HandleItemsKeep(m1, keys, items[1..]);
    }
  }

  lemma {:induction false} HandleVisitsKeep(m: Manager, keys: seq<Name>, visits: seq<Visit>)
    requires Kept(m, keys)
    ensures Kept(HandleVisits(m, visits), keys) && HandleVisits(m, visits).limits == m.limits
    ensures DeliveriesBounded(m) ==> DeliveriesBounded(HandleVisits(m, visits))
    decreases visits
  {
    hide HandleItems, Kept, GetPending, DeliveriesBounded;
    if visits != [] {
      var v := visits[0];
      KeptIsUnique(m, keys);
      GetPendingOk(m.server, v);
      HandleItemsKeep(m, keys, GetPending(m.server, v.key, v.group, v.consumer, v.count));
      HandleVisitsKeep(HandleItems(m, GetPending(m.server, v.key, v.group, v.consumer, v.count)), keys, visits[1..]);
    }
  }

  /** A pass keeps the list covered and its ids unique, and never takes deliveries more than one past the limit. */
  lemma {:induction false} PassKeeps(m: Manager, keys: seq<Name>)
    requires Kept(m, keys)
    ensures Kept(Pass(m, keys), keys) && Pass(m, keys).limits == m.limits
    ensures DeliveriesBounded(m) ==> DeliveriesBounded(Pass(m, keys))
  {
    hide HandleVisits;
    var gs := AllPendingGroups(m.server, keys);
    HandleVisitsKeep(m.(siblings := AllSiblings(m.server, AllEmptySiblings(m.server, m.siblings, keys), gs)),
                     keys, AllVisits(m.server, gs));
  }

  // ---- every pending message leaves ----

  function Aged(pending: seq<Pending>, dt: nat): seq<Pending> {
    if pending == [] then [] else [pending[0].(idle := pending[0].idle + dt)] + Aged(pending[1..], dt)
  }

  /** Time passes and no consumer reads; then the manager passes. */
  function Round(m: Manager, keys: seq<Name>, dt: nat): Manager {
    Pass(m.(server := m.server.(pending := Aged(m.server.pending, dt))), keys)
  }

  function Rounds(m: Manager, keys: seq<Name>, dts: seq<nat>): Manager
    decreases dts
  {
    if dts == [] then m else Rounds(Round(m, keys, dts[0]), keys, dts[1..])
  }

  /** The longest time any message still has before it is overdue. */
  function Patience(limits: Limits, pending: seq<Pending>): nat {
    if pending == [] then 0
    else
      var mine := if pending[0].idle <= limits.tolerant then limits.tolerant + 1 - pending[0].idle else 0;
      var rest := Patience(limits, pending[1..]);
      if mine > rest then mine else rest
  }

  /** Lexicographic: deliveries left in all, then time left. */
  function Measure(m: Manager): nat {
    Left(m) * (m.limits.tolerant + 2) + Patience(m.limits, m.server.pending)
  }

  lemma {:induction false} PatienceBound(limits: Limits, pending: seq<Pending>)
    ensures Patience(limits, pending) <= limits.tolerant + 1
    ensures pending != [] && (forall p :: p in pending ==> p.idle <= limits.tolerant) ==> Patience(limits, pending) > 0
    decreases pending
  {
    if pending != [] { PatienceBound(limits, pending[1..]); }
  }

  lemma {:induction false} AgedShape(pending: seq<Pending>, dt: nat)
    ensures |Aged(pending, dt)| == |pending|
    ensures forall i :: 0 <= i < |pending| ==> Aged(pending, dt)[i] == pending[i].(idle := pending[i].idle + dt)
    decreases pending
  {
    if pending != [] { AgedShape(pending[1..], dt); }
  }

  lemma {:induction false} AgedMeasures(limits: Limits, pending: seq<Pending>, dt: nat)
    ensures TotalRemaining(limits, Aged(pending, dt)) == TotalRemaining(limits, pending)
    ensures Patience(limits, Aged(pending, dt)) == if Patience(limits, pending) >= dt then Patience(limits, pending) - dt else 0
    decreases pending
  {
    if pending != [] {
      AgedMeasures(limits, pending[1..], dt);
      assert Aged(pending, dt)[1..] == Aged(pending[1..], dt);
    }
  }

  lemma {:induction false} AgedKeeps(m: Manager, keys: seq<Name>, dt: nat)
    requires Kept(m, keys)
    ensures Kept(m.(server := m.server.(pending := Aged(m.server.pending, dt))), keys)
  {
    AgedShape(m.server.pending, dt);
    var pending := Aged(m.server.pending, dt);
    forall i | 0 <= i < |pending| ensures Is(pending[i], m.server.pending[i]) && pending[i].consumer == m.server.pending[i].consumer {
      assert CoveredOne(m.server, keys, m.server.pending[i]);
    }
  }

  lemma {:induction false} OneMore(a: nat, b: nat, k: nat)
    requires a < b
    ensures a * k + k <= b * k
  {
    assert b * k == a * k + (b - a) * k;
    assert (b - a) * k == k + (b - a - 1) * k;
  }

  lemma {:induction false} LessLeft(a: nat, b: nat, t: nat, pa: nat, pb: nat)
    requires a < b && pa <= t + 1
    ensures a * (t + 2) + pa < b * (t + 2) + pb
  {
    OneMore(a, b, t + 2);
  }

  lemma {:induction false} PatienceFalls(limits: Limits, pending: seq<Pending>, dt: nat)
    requires dt > 0 && pending != [] && forall p :: p in Aged(pending, dt) ==> p.idle <= limits.tolerant
    ensures Patience(limits, Aged(pending, dt)) < Patience(limits, pending)
  {
    hide Patience, Aged;
    AgedShape(pending, dt);
    AgedMeasures(limits, pending, dt);
    PatienceBound(limits, Aged(pending, dt));
  }

  /** The measure falls with the deliveries left, or with the time left when they stay. */
  lemma {:induction false} MeasureFalls(m: Manager, m': Manager)
    requires m'.limits == m.limits
    requires Left(m') < Left(m)
      || (Left(m') == Left(m) && Patience(m.limits, m'.server.pending) < Patience(m.limits, m.server.pending))
    ensures Measure(m') < Measure(m)
  {
    hide Left, Patience;
    PatienceBound(m.limits, m'.server.pending);
    if Left(m') < Left(m) {
      LessLeft(Left(m'), Left(m), m.limits.tolerant, Patience(m.limits, m'.server.pending), Patience(m.limits, m.server.pending));
    }
  }

  /** While anything is pending, every round brings the measure down. */
  lemma {:induction false} RoundProgress(m: Manager, keys: seq<Name>, dt: nat)
    requires Kept(m, keys) && AllLawful(m) && dt > 0
    ensures Kept(Round(m, keys, dt), keys) && AllLawful(Round(m, keys, dt)) && Round(m, keys, dt).limits == m.limits
    ensures m.server.pending != [] ==> Measure(Round(m, keys, dt)) < Measure(m)
    ensures m.server.pending == [] ==> Measure(Round(m, keys, dt)) <= Measure(m)
  {
    hide Pass, Covered, Unique, Lawful, Measure, Patience, Aged;
    var m1 := m.(server := m.server.(pending := Aged(m.server.pending, dt)));
    AgedKeeps(m, keys, dt);
    AgedMeasures(m.limits, m.server.pending, dt);
    PassKeeps(m1, keys);
    PassProgress(m1, keys);
    var m2 := Pass(m1, keys);
    if Left(m2) < Left(m1) {
      MeasureFalls(m, m2);
    } else if m.server.pending != [] {
      PatienceFalls(m.limits, m.server.pending, dt);
      MeasureFalls(m, m2);
    } else {
      NothingAged(m, m2, dt);
    }
  }

  lemma NothingAged(m: Manager, m': Manager, dt: nat)
    requires m.server.pending == [] && m'.limits == m.limits && m'.server.pending == Aged(m.server.pending, dt)
    ensures Measure(m') == Measure(m)
  {
  }

  /**
   Every pending message leaves: when no consumer reads, time advances and the commands succeed,
   the list of a manager that covers it is empty after at most as many rounds as the measure.
   */
  lemma {:induction false} EverythingLeaves(m: Manager, keys: seq<Name>, dts: seq<nat>)
    requires Kept(m, keys) && AllLawful(m) && (forall i :: 0 <= i < |dts| ==> dts[i] > 0)
    requires |dts| >= Measure(m)
    ensures Rounds(m, keys, dts).server.pending == []
    ensures AllLawful(Rounds(m, keys, dts)) && Kept(Rounds(m, keys, dts), keys)
    decreases dts
  {
    hide Round, Kept, Lawful, Measure;
    if dts == [] {
      NothingMeasured(m);
    } else {
      RoundProgress(m, keys, dts[0]);
      if m.server.pending == [] {
        RoundsStayEmpty(m, keys, dts);
      } else {
        EverythingLeaves(Round(m, keys, dts[0]), keys, dts[1..]);
      }
    }
  }

  lemma {:induction false} NothingMeasured(m: Manager)
    requires Measure(m) == 0
    ensures m.server.pending == []
  {
    if m.server.pending != [] {
      assert Left(m) >= Remaining(m.limits, m.server.pending[0]) >= 1;
      LessLeft(0, Left(m), m.limits.tolerant, 0, 0);
    }
  }

  lemma {:induction false} NothingLeft(m: Manager)
    ensures m.server.pending == [] ==> Measure(m) == 0
    ensures m.server.pending != [] ==> Measure(m) > 0
  {
    if m.server.pending != [] {
      assert Left(m) >= Remaining(m.limits, m.server.pending[0]) >= 1;
      LessLeft(0, Left(m), m.limits.tolerant, 0, 0);
    }
  }

  lemma {:induction false} RoundsStayEmpty(m: Manager, keys: seq<Name>, dts: seq<nat>)
    requires Kept(m, keys) && AllLawful(m) && (forall i :: 0 <= i < |dts| ==> dts[i] > 0)
    requires m.server.pending == []
    ensures Rounds(m, keys, dts).server.pending == []
    ensures AllLawful(Rounds(m, keys, dts)) && Kept(Rounds(m, keys, dts), keys)
    decreases dts
  {
    hide Round, Kept, Lawful, Measure;
    if dts != [] {
      RoundProgress(m, keys, dts[0]);
      NothingLeft(m);
      NothingLeft(Round(m, keys, dts[0]));
      RoundsStayEmpty(Round(m, keys, dts[0]), keys, dts[1..]);
    }
  }

  /** Stored messages are deleted only when they are given up. */
  lemma {:induction false} DeletesOnlyGivenUp(m: Manager, item: Pending, key: Name, id: Name)
    requires (key, id) in m.server.stored && (key, id) !in HandleItem(m, item).server.stored
    ensures item.key == key && item.id == id && item.delivered > m.limits.maxDelivered
    ensures HandleItem(m, item).log == m.log + [GaveUp(item)]
  {
  }
}
