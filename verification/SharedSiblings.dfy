/**
 Whom the broker's manager hands a message to.  Its table of siblings has one entry for each group
 name, and groups of different keys may share a name, so an entry holds the consumers of every
 such group with pending messages.  The message can go to a consumer that never reads its key.
 */
module SharedSiblings {
  import opened PendingMessages
  import opened RSBrokerManager

  // ---- what stands in the table ----

  /** The key is registered and its group of this name has pending messages. */
  predicate Planned(s: Server, keys: seq<Name>, key: Name, group: Name) {
    key in keys && group in GroupsOf(s, key) && InGroup(s.pending, key, group) != []
  }

  /** A consumer of a group of this name, of whatever key, among those with pending messages. */
  ghost predicate InUnion(s: Server, keys: seq<Name>, group: Name, name: Name) {
    exists key :: Planned(s, keys, key, group) && name in ConsumersOf(s, (key, group))
  }

  /** The same, over the queue of groups. */
  predicate InQueued(s: Server, gs: seq<(Name, Name)>, group: Name, name: Name) {
    gs != [] && ((gs[0].1 == group && name in ConsumersOf(s, gs[0])) || InQueued(s, gs[1..], group, name))
  }

  lemma {:induction false} PendingGroupsAre(s: Server, key: Name, groups: seq<Name>, g: (Name, Name))
    ensures g in PendingGroups(s, key, groups) <==> g.0 == key && g.1 in groups && InGroup(s.pending, key, g.1) != []
    decreases groups
  {
    hide InGroup;
    if groups != [] { PendingGroupsAre(s, key, groups[1..], g); }
  }

  lemma {:induction false} AllPendingGroupsAre(s: Server, keys: seq<Name>, g: (Name, Name))
    ensures g in AllPendingGroups(s, keys) <==> Planned(s, keys, g.0, g.1)
    decreases keys
  {
    hide InGroup, PendingGroups;
    if keys != [] {
      PendingGroupsAre(s, keys[0], GroupsOf(s, keys[0]), g);
      AllPendingGroupsAre(s, keys[1..], g);
    }
  }

  lemma {:induction false} QueuedHas(s: Server, gs: seq<(Name, Name)>, group: Name, name: Name)
    ensures InQueued(s, gs, group, name) <==> exists key :: (key, group) in gs && name in ConsumersOf(s, (key, group))
    decreases gs
  {
    hide ConsumersOf;
    if gs != [] {
      QueuedHas(s, gs[1..], group, name);
      if gs[0].1 == group { assert gs[0] == (gs[0].0, group); }
    }
  }

  lemma {:induction false} QueuedIsUnion(s: Server, keys: seq<Name>, group: Name, name: Name)
    ensures InQueued(s, AllPendingGroups(s, keys), group, name) <==> InUnion(s, keys, group, name)
  {
    hide ConsumersOf, Planned;
    QueuedHas(s, AllPendingGroups(s, keys), group, name);
    forall key: Name ensures (key, group) in AllPendingGroups(s, keys) <==> Planned(s, keys, key, group) {
      AllPendingGroupsAre(s, keys, (key, group));
    }
  }

  lemma {:induction false} OtherEntriesStay(siblings: map<Name, seq<Name>>, g: Name, consumers: seq<Name>, group: Name)
    requires g != group && group in siblings
    ensures var table := WithSiblings(siblings, g, consumers); group in table && table[group] == siblings[group]
    decreases consumers
  {
    if consumers != [] && g in siblings {
      OtherEntriesStay(siblings[g := Insert(siblings[g], consumers[0])], g, consumers[1..], group);
    }
  }

  /** Filling the table from the queue: the entry gains the consumers of all groups of the name, in order. */
  lemma {:induction false} FilledIsUnion(s: Server, siblings: map<Name, seq<Name>>, gs: seq<(Name, Name)>, group: Name)
    requires group in siblings && Sorted(siblings[group])
    ensures var table := AllSiblings(s, siblings, gs);
      && group in table && Sorted(table[group])
      && (forall n :: n in table[group] <==> n in siblings[group] || InQueued(s, gs, group, n))
    decreases gs
  {
    hide Sorted, ConsumersOf, WithSiblings;
    if gs != [] {
      if gs[0].1 == group {
        SiblingsAreConsumers(siblings, group, ConsumersOf(s, gs[0]));
      } else {
        OtherEntriesStay(siblings, gs[0].1, ConsumersOf(s, gs[0]), group);
      }
      FilledIsUnion(s, WithSiblings(siblings, gs[0].1, ConsumersOf(s, gs[0])), gs[1..], group);
    }
  }

  lemma {:induction false} EmptiedGroup(siblings: map<Name, seq<Name>>, groups: seq<Name>, group: Name)
    ensures var table := EmptySiblings(siblings, groups);
      (group in groups || (group in siblings && siblings[group] == [])) ==> group in table && table[group] == []
    decreases groups
  {
    if groups != [] { EmptiedGroup(siblings[groups[0] := []], groups[1..], group); }
  }

  lemma {:induction false} EmptiedAll(s: Server, siblings: map<Name, seq<Name>>, keys: seq<Name>, key: Name, group: Name)
    requires (key in keys && group in GroupsOf(s, key)) || (group in siblings && siblings[group] == [])
    ensures var table := AllEmptySiblings(s, siblings, keys); group in table && table[group] == []
    decreases keys
  {
    hide GroupsOf, EmptySiblings;
    if keys != [] {
      EmptiedGroup(siblings, GroupsOf(s, keys[0]), group);
      EmptiedAll(s, EmptySiblings(siblings, GroupsOf(s, keys[0])), keys[1..], key, group);
    }
  }

  lemma {:induction false} UnlistedStays(siblings: map<Name, seq<Name>>, groups: seq<Name>, group: Name)
    requires group in siblings && group !in groups
    ensures var table := EmptySiblings(siblings, groups); group in table && table[group] == siblings[group]
    decreases groups
  {
    if groups != [] { UnlistedStays(siblings[groups[0] := []], groups[1..], group); }
  }

  /** Collecting the groups empties only the entries of groups the keys have; an entry of no group any more stays. */
  lemma {:induction false} StaleStays(s: Server, siblings: map<Name, seq<Name>>, keys: seq<Name>, group: Name)
    requires group in siblings && forall key :: key in keys ==> group !in GroupsOf(s, key)
    ensures var table := AllEmptySiblings(s, siblings, keys); group in table && table[group] == siblings[group]
    decreases keys
  {
    hide GroupsOf, EmptySiblings;
    if keys != [] {
      UnlistedStays(siblings, GroupsOf(s, keys[0]), group);
      StaleStays(s, EmptySiblings(siblings, GroupsOf(s, keys[0])), keys[1..], group);
    }
  }

  /** The table a pass uses from its first message to its last. */
  function Table(m: Manager, keys: seq<Name>): map<Name, seq<Name>> {
    AllSiblings(m.server, AllEmptySiblings(m.server, m.siblings, keys), AllPendingGroups(m.server, keys))
  }

  /** An entry is the ordered union over all keys, not the consumers of one key's group. */
  lemma {:induction false} TableIsUnion(m: Manager, keys: seq<Name>, key: Name, group: Name)
    requires Planned(m.server, keys, key, group)
    ensures group in Table(m, keys) && Sorted(Table(m, keys)[group])
    ensures forall n :: n in Table(m, keys)[group] <==> InUnion(m.server, keys, group, n)
  {
    hide Sorted, AllSiblings, AllPendingGroups, AllEmptySiblings, InUnion, InQueued;
    var empty := AllEmptySiblings(m.server, m.siblings, keys);
    EmptiedAll(m.server, m.siblings, keys, key, group);
    assert Sorted(empty[group]) by { NoneIsSorted(); }
    FilledIsUnion(m.server, empty, AllPendingGroups(m.server, keys), group);
    forall n: Name ensures InQueued(m.server, AllPendingGroups(m.server, keys), group, n) <==> InUnion(m.server, keys, group, n) {
      QueuedIsUnion(m.server, keys, group, n);
    }
  }

  lemma NoneIsSorted()
    ensures Sorted([])
  {
  }

  // ---- the sibling it names ----

  /** The least name in the union other than the holder's. */
  ghost predicate LeastOther(s: Server, keys: seq<Name>, group: Name, holder: Name, name: Name) {
    && InUnion(s, keys, group, name) && name != holder
    && forall n :: InUnion(s, keys, group, n) && n != holder && n != name ==> Less(name, n)
  }

  lemma {:induction false} LeastIsOne(s: Server, keys: seq<Name>, group: Name, holder: Name, a: Name, b: Name)
    requires LeastOther(s, keys, group, holder, a) && LeastOther(s, keys, group, holder, b)
    ensures a == b
  {
    hide InUnion, Less;
    LessIsStrict(a, b);
  }

  lemma {:induction false} SiblingIsLeast(m: Manager, keys: seq<Name>, key: Name, group: Name, holder: Name, name: Name)
    requires Planned(m.server, keys, key, group) && name != ""
    ensures Sibling(Table(m, keys), group, holder) == name <==> LeastOther(m.server, keys, group, holder, name)
  {
    hide InUnion, Table, Less, Sorted, FirstOther, Planned;
    TableIsUnion(m, keys, key, group);
    var names := Table(m, keys)[group];
    SiblingIff(names, holder);
    FirstOtherIsOther(names, holder);
    var first := FirstOther(names, holder);
    if first == name {
      assert LeastOther(m.server, keys, group, holder, name);
    } else if LeastOther(m.server, keys, group, holder, name) {
      assert name in names && name != holder;
      if first != "" {
        assert Less(first, name) && Less(name, first);
        LessIsStrict(first, name);
      } else {
        assert "" in names && holder != "";
        assert Less(name, "");
        NothingIsLess(name);
      }
    }
  }

  lemma NothingIsLess(name: Name)
    ensures !Less(name, "")
  {
  }

  /** Some message can be handed on: the union has another name, and its least one is not empty. */
  lemma {:induction false} SiblingExistsIff(m: Manager, keys: seq<Name>, key: Name, group: Name, holder: Name)
    requires Planned(m.server, keys, key, group)
    ensures Sibling(Table(m, keys), group, holder) != "" <==>
      (exists n :: InUnion(m.server, keys, group, n) && n != holder)
      && !(InUnion(m.server, keys, group, "") && holder != "")
  {
    hide InUnion, Table, Less, Sorted, FirstOther, Planned;
    TableIsUnion(m, keys, key, group);
    var names := Table(m, keys)[group];
    SiblingIff(names, holder);
    if n :| n in names && n != holder { assert InUnion(m.server, keys, group, n); }
  }

  // ---- what a pass logs ----

  /** What the manager decides about one message, given the table. */
  function Decision(limits: Limits, table: map<Name, seq<Name>>, item: Pending): seq<Act> {
    if item.delivered > limits.maxDelivered then [GaveUp(item)]
    else if item.idle > limits.tolerant then [Acknowledged(item)]
    else if item.idle > limits.transfer && Sibling(table, item.group, item.consumer) != "" then
      [Claimed(item, Sibling(table, item.group, item.consumer))]
    else []
  }

  function Decisions(limits: Limits, table: map<Name, seq<Name>>, items: seq<Pending>): seq<Act> {
    if items == [] then [] else Decision(limits, table, items[0]) + Decisions(limits, table, items[1..])
  }

  /** The messages the visits look at, as they are at that moment. */
  function Looked(m: Manager, visits: seq<Visit>): seq<Pending>
    decreases visits
  {
    if visits == [] then []
    else
      var v := visits[0];
      var items := GetPending(m.server, v.key, v.group, v.consumer, v.count);
      items + Looked(HandleItems(m, items), visits[1..])
  }

  /** The messages a pass looks at. */
  function Visited(m: Manager, keys: seq<Name>): seq<Pending> {
    Looked(m.(siblings := Table(m, keys)), AllVisits(m.server, AllPendingGroups(m.server, keys)))
  }

  lemma {:induction false} Glue(log: seq<Act>, a: seq<Act>, b: seq<Act>)
    ensures log + a + b == log + (a + b) && log + [] == log
  {
  }

  lemma {:induction false} DecisionsAppend(limits: Limits, table: map<Name, seq<Name>>, a: seq<Pending>, b: seq<Pending>)
    ensures Decisions(limits, table, a + b) == Decisions(limits, table, a) + Decisions(limits, table, b)
    decreases a
  {
    hide Decision;
    if a == [] {
      assert a + b == b;
    } else {
      assert (a + b)[0] == a[0] && (a + b)[1..] == a[1..] + b;
      DecisionsAppend(limits, table, a[1..], b);
    }
  }

  lemma {:induction false} ItemLog(m: Manager, item: Pending)
    ensures var m' := HandleItem(m, item);
      m'.log == m.log + Decision(m.limits, m.siblings, item) && m'.limits == m.limits && m'.siblings == m.siblings
  {
    hide Sibling;
  }

  lemma {:induction false} ItemsLog(m: Manager, items: seq<Pending>)
    ensures var m' := HandleItems(m, items);
      m'.log == m.log + Decisions(m.limits, m.siblings, items) && m'.limits == m.limits && m'.siblings == m.siblings
    decreases items
  {
    hide HandleItem, Decision;
    if items != [] {
      ItemLog(m, items[0]);
      ItemsLog(HandleItem(m, items[0]), items[1..]);
      Glue(m.log, Decision(m.limits, m.siblings, items[0]), Decisions(m.limits, m.siblings, items[1..]));
    }
  }

  /** The log of a pass is what it decided about the messages it looked at, in order. */
  lemma {:induction false} VisitsLog(m: Manager, visits: seq<Visit>)
    ensures HandleVisits(m, visits).log == m.log + Decisions(m.limits, m.siblings, Looked(m, visits))
    decreases visits
  {
    hide HandleItems, GetPending, Decision, Decisions;
    if visits != [] {
      var v := visits[0];
      var items := GetPending(m.server, v.key, v.group, v.consumer, v.count);
      var m1 := HandleItems(m, items);
      ItemsLog(m, items);
      VisitsLog(m1, visits[1..]);
      DecisionsAppend(m.limits, m.siblings, items, Looked(m1, visits[1..]));
      Glue(m.log, Decisions(m.limits, m.siblings, items), Decisions(m.limits, m.siblings, Looked(m1, visits[1..])));
    } else {
      NothingDecided(m);
    }
  }

  lemma NothingDecided(m: Manager)
    ensures m.log + Decisions(m.limits, m.siblings, []) == m.log
  {
  }

  lemma {:induction false} DecidedHas(limits: Limits, table: map<Name, seq<Name>>, items: seq<Pending>, item: Pending, to: Name)
    ensures Claimed(item, to) in Decisions(limits, table, items)
            <==> item in items && Decision(limits, table, item) == [Claimed(item, to)]
    decreases items
  {
    hide Sibling;
    if items != [] { DecidedHas(limits, table, items[1..], item, to); }
  }

  // ---- every message looked at belongs to a planned group ----

  predicate PlannedItems(s: Server, keys: seq<Name>, items: seq<Pending>) {
    forall i :: 0 <= i < |items| ==> Planned(s, keys, items[i].key, items[i].group)
  }

  predicate PlannedVisits(s: Server, keys: seq<Name>, visits: seq<Visit>) {
    forall i :: 0 <= i < |visits| ==> Planned(s, keys, visits[i].key, visits[i].group)
  }

  lemma {:induction false} HeldArePlanned(s: Server, keys: seq<Name>, now: Server, v: Visit)
    requires Planned(s, keys, v.key, v.group)
    ensures PlannedItems(s, keys, GetPending(now, v.key, v.group, v.consumer, v.count))
  {
    hide Planned;
    var items := GetPending(now, v.key, v.group, v.consumer, v.count);
    forall i | 0 <= i < |items| ensures Planned(s, keys, items[i].key, items[i].group) {
      HeldHas(now.pending, v.key, v.group, v.consumer, items[i]);
    }
  }

  lemma {:induction false} LookedArePlanned(s: Server, keys: seq<Name>, m: Manager, visits: seq<Visit>)
    requires PlannedVisits(s, keys, visits)
    ensures PlannedItems(s, keys, Looked(m, visits))
    decreases visits
  {
    hide Planned, GetPending, HandleItems;
    if visits != [] {
      var v := visits[0];
      var items := GetPending(m.server, v.key, v.group, v.consumer, v.count);
      HeldArePlanned(s, keys, m.server, v);
      LookedArePlanned(s, keys, HandleItems(m, items), visits[1..]);
    }
  }

  lemma {:induction false} ConsumerVisitsOf(s: Server, g: (Name, Name), consumers: seq<Name>)
    ensures forall i :: 0 <= i < |PendingConsumers(s, g, consumers)| ==>
      var v := PendingConsumers(s, g, consumers)[i]; (v.key, v.group) == g
    decreases consumers
  {
    hide Held;
    if consumers != [] { ConsumerVisitsOf(s, g, consumers[1..]); }
  }

  lemma {:induction false} VisitsArePlanned(s: Server, keys: seq<Name>, gs: seq<(Name, Name)>)
    requires forall i :: 0 <= i < |gs| ==> Planned(s, keys, gs[i].0, gs[i].1)
    ensures PlannedVisits(s, keys, AllVisits(s, gs))
    decreases gs
  {
    hide Planned, PendingConsumers, ConsumersOf;
    if gs != [] {
      ConsumerVisitsOf(s, gs[0], ConsumersOf(s, gs[0]));
      VisitsArePlanned(s, keys, gs[1..]);
    }
  }

  lemma {:induction false} VisitedArePlanned(m: Manager, keys: seq<Name>, item: Pending)
    requires item in Visited(m, keys)
    ensures Planned(m.server, keys, item.key, item.group)
  {
    hide Planned, Looked, AllVisits, Table;
    var gs := AllPendingGroups(m.server, keys);
    forall i | 0 <= i < |gs| ensures Planned(m.server, keys, gs[i].0, gs[i].1) {
      assert gs[i] in gs;
      AllPendingGroupsAre(m.server, keys, gs[i]);
    }
    VisitsArePlanned(m.server, keys, gs);
    LookedArePlanned(m.server, keys, m.(siblings := Table(m, keys)), AllVisits(m.server, gs));
  }

  // ---- the claims of a pass ----

  /** What a pass adds to the log. */
  function Added(m: Manager, keys: seq<Name>): seq<Act> {
    VisitsLog(m.(siblings := Table(m, keys)), AllVisits(m.server, AllPendingGroups(m.server, keys)));
    Pass(m, keys).log[|m.log|..]
  }

  /** The message has waited for long enough to be handed on, and not too long to be kept. */
  predicate InWindow(limits: Limits, item: Pending) {
    item.delivered <= limits.maxDelivered && limits.transfer < item.idle <= limits.tolerant
  }

  lemma {:induction false} AddedIs(m: Manager, keys: seq<Name>)
    ensures Added(m, keys) == Decisions(m.limits, Table(m, keys), Visited(m, keys))
  {
    hide HandleVisits, AllVisits, Table, Looked, Decisions;
    VisitsLog(m.(siblings := Table(m, keys)), AllVisits(m.server, AllPendingGroups(m.server, keys)));
    PassIs(m, keys);
  }

  lemma PassIs(m: Manager, keys: seq<Name>)
    ensures Pass(m, keys)
         == HandleVisits(m.(siblings := Table(m, keys)), AllVisits(m.server, AllPendingGroups(m.server, keys)))
  {
  }

  /**
   A pass claims a message for a consumer if and only if it looks at the message, finds it in the
   window, and the consumer is the least name other than the holder's among the consumers of all
   planned groups of that name, whatever their keys, and is not the empty name.
   */
  lemma {:induction false} ClaimedIff(m: Manager, keys: seq<Name>, item: Pending, to: Name)
    ensures Claimed(item, to) in Added(m, keys)
      <==> item in Visited(m, keys) && InWindow(m.limits, item) && to != ""
           && LeastOther(m.server, keys, item.group, item.consumer, to)
  {
    hide Added, Visited, LeastOther, Table, Sibling, Decisions;
    AddedIs(m, keys);
    DecidedHas(m.limits, Table(m, keys), Visited(m, keys), item, to);
    if item in Visited(m, keys) && to != "" {
      VisitedArePlanned(m, keys, item);
      SiblingIsLeast(m, keys, item.key, item.group, item.consumer, to);
    }
  }

  /** A message that is looked at in the window is handed on exactly when the union has another name and its least is not empty. */
  lemma {:induction false} HandedOnIff(m: Manager, keys: seq<Name>, item: Pending)
    requires item in Visited(m, keys) && InWindow(m.limits, item)
    ensures (exists to :: Claimed(item, to) in Added(m, keys)) <==>
      (exists n :: InUnion(m.server, keys, item.group, n) && n != item.consumer)
      && !(InUnion(m.server, keys, item.group, "") && item.consumer != "")
  {
    hide Added, Visited, InUnion, Table, Sibling, Planned;
    VisitedArePlanned(m, keys, item);
    SiblingExistsIff(m, keys, item.key, item.group, item.consumer);
    var to := Sibling(Table(m, keys), item.group, item.consumer);
    if to != "" {
      SiblingIsLeast(m, keys, item.key, item.group, item.consumer, to);
      ClaimedIff(m, keys, item, to);
    } else if other :| Claimed(item, other) in Added(m, keys) {
      ClaimedIff(m, keys, item, other);
      SiblingIsLeast(m, keys, item.key, item.group, item.consumer, other);
    }
  }

  /** The consumer reads the message's own key in this group. */
  predicate Own(s: Server, item: Pending, name: Name) { name in ConsumersOf(s, (item.key, item.group)) }

  /** The least name other than the holder's in the union is a consumer of the message's own group. */
  ghost predicate LeastIsOwn(s: Server, keys: seq<Name>, item: Pending) {
    exists n :: Own(s, item, n) && LeastOther(s, keys, item.group, item.consumer, n)
  }

  /** The claim goes to a consumer of the message's own group if and only if the least other name in the union is one. */
  lemma {:induction false} ClaimStaysIff(m: Manager, keys: seq<Name>, item: Pending, to: Name)
    requires Claimed(item, to) in Added(m, keys)
    ensures Own(m.server, item, to) <==> LeastIsOwn(m.server, keys, item)
  {
    hide Added, Visited, LeastOther, Own;
    ClaimedIff(m, keys, item, to);
    if n :| Own(m.server, item, n) && LeastOther(m.server, keys, item.group, item.consumer, n) {
      LeastIsOne(m.server, keys, item.group, item.consumer, n, to);
    }
  }

  /** No two registered keys have groups of the same name. */
  predicate NamesApart(s: Server, keys: seq<Name>) {
    forall a, b :: a in keys && b in keys && a != b ==>
      forall g :: g in GroupsOf(s, a) ==> g !in GroupsOf(s, b)
  }

  /** Then every claim stays within the message's own group. */
  lemma {:induction false} ApartStays(m: Manager, keys: seq<Name>, item: Pending, to: Name)
    requires NamesApart(m.server, keys) && Claimed(item, to) in Added(m, keys)
    ensures Own(m.server, item, to)
  {
    hide Added, Visited, GroupsOf, ConsumersOf, InGroup, Less;
    ClaimedIff(m, keys, item, to);
    VisitedArePlanned(m, keys, item);
    var key :| Planned(m.server, keys, key, item.group) && to in ConsumersOf(m.server, (key, item.group));
  }

  // ---- a claim that leaves the group ----

  /** Two keys with groups of one name; the message of the first key is held by b and may be handed on. */
  function TwoStreams(item: Pending, other: Pending): Server {
    Server(map[item.key := [item.group], other.key := [item.group]],
           map[(item.key, item.group) := ["b", "c"], (other.key, item.group) := ["a"]],
           [item, other], {(item.key, item.id), (other.key, other.id)})
  }

  lemma {:induction false} FirstIsVisited(m: Manager, item: Pending, other: Pending)
    requires item.key != other.key && item.group == other.group && item.consumer == "b"
    requires m.server == TwoStreams(item, other)
    ensures Planned(m.server, [item.key, other.key], item.key, item.group)
    ensures Planned(m.server, [item.key, other.key], other.key, item.group)
    ensures item in Visited(m, [item.key, other.key])
  {
    hide Table;
    var s, keys := m.server, [item.key, other.key];
    InGroupHas(s.pending, item.key, item.group, item);
    InGroupHas(s.pending, other.key, item.group, other);
    AllPendingGroupsAre(s, keys, (item.key, item.group));
    var gs := AllPendingGroups(s, keys);
    FirstPlanned(s, keys, (item.key, item.group));
    FirstHeld(s, (item.key, item.group), ["b", "c"], item);
    FirstLooked(m.(siblings := Table(m, keys)), AllVisits(s, gs), item);
  }

  lemma {:induction false} FirstPlanned(s: Server, keys: seq<Name>, g: (Name, Name))
    requires |keys| == 2 && keys[0] == g.0 && GroupsOf(s, g.0) == [g.1] && InGroup(s.pending, g.0, g.1) != []
    ensures AllPendingGroups(s, keys) != [] && AllPendingGroups(s, keys)[0] == g
  {
    hide InGroup;
    assert PendingGroups(s, g.0, [g.1]) != [] && PendingGroups(s, g.0, [g.1])[0] == g;
  }

  lemma {:induction false} FirstHeld(s: Server, g: (Name, Name), consumers: seq<Name>, item: Pending)
    requires consumers != [] && s.pending != [] && s.pending[0] == item && HeldBy(item, g.0, g.1, consumers[0])
    ensures var visits := PendingConsumers(s, g, consumers);
      visits != [] && visits[0] == Visit(g.0, g.1, consumers[0], |Held(s.pending, g.0, g.1, consumers[0])|)
  {
    HeldHas(s.pending, g.0, g.1, consumers[0], item);
  }

  lemma {:induction false} FirstLooked(m: Manager, visits: seq<Visit>, item: Pending)
    requires m.server.pending != [] && m.server.pending[0] == item && visits != []
    requires var v := visits[0];
      HeldBy(item, v.key, v.group, v.consumer) && v.count == |Held(m.server.pending, v.key, v.group, v.consumer)|
    ensures item in Looked(m, visits)
  {
    var v := visits[0];
    HeldHas(m.server.pending, v.key, v.group, v.consumer, item);
    assert item in GetPending(m.server, v.key, v.group, v.consumer, v.count);
  }

  /**
   A whole pass with default limits over two keys that share a group name: the message of the first
   key goes to a consumer of the second key's group, which the first key's group does not have.
   */
  lemma {:induction false} ClaimLeavesGroup() returns (m: Manager, keys: seq<Name>, item: Pending)
    ensures Unique(m.server.pending) && Covered(m.server, keys) && m.limits == Limits(10000, 5000, 3)
    ensures ConsumersOf(m.server, (item.key, item.group)) == ["b", "c"]
    ensures Claimed(item, "a") in Pass(m, keys).log && !Own(m.server, item, "a")
  {
    hide Visited, Added, LeastOther, Pass, TwoStreams, Planned, Unique, Covered, ConsumersOf;
    item := Pending("k1", "g", "1", "b", 6000, 1);
    var other := Pending("k2", "g", "2", "a", 0, 1);
    keys := ["k1", "k2"];
    assert item.key[1] != other.key[1];
    m := Manager(TwoStreams(item, other), map[], Limits(10000, 5000, 3), []);
    FirstIsVisited(m, item, other);
    AIsLeast(m.server, keys, item, other);
    ClaimedIff(m, keys, item, "a");
    AddedToLog(m, keys, item, "a");
    CoveredOnes(m.server, keys, item, other);
  }

  lemma AddedToLog(m: Manager, keys: seq<Name>, item: Pending, to: Name)
    ensures Claimed(item, to) in Added(m, keys) ==> Claimed(item, to) in Pass(m, keys).log
  {
    hide Pass;
  }

  lemma {:induction false} CoveredOnes(s: Server, keys: seq<Name>, item: Pending, other: Pending)
    requires item.key != other.key && item.group == other.group && item.consumer == "b" && other.consumer == "a"
    requires s == TwoStreams(item, other) && keys == [item.key, other.key]
    ensures Unique(s.pending) && Covered(s, keys)
    ensures ConsumersOf(s, (item.key, item.group)) == ["b", "c"] && !Own(s, item, "a")
  {
    assert "a"[0] != "b"[0] && "a"[0] != "c"[0];
  }

  lemma {:induction false} AIsLeast(s: Server, keys: seq<Name>, item: Pending, other: Pending)
    requires item.key != other.key && item.group == other.group && item.consumer == "b"
    requires s == TwoStreams(item, other) && keys == [item.key, other.key]
    requires Planned(s, keys, item.key, item.group) && Planned(s, keys, other.key, item.group)
    ensures LeastOther(s, keys, item.group, "b", "a")
  {
    assert ConsumersOf(s, (other.key, item.group)) == ["a"] && ConsumersOf(s, (item.key, item.group)) == ["b", "c"];
    assert InUnion(s, keys, item.group, "a");
    assert "a"[0] != "b"[0];
    forall n | InUnion(s, keys, item.group, n) && n != "b" && n != "a" ensures Less("a", n) {
      assert n == "c";
      assert "a"[0] < "c"[0];
    }
  }
}
