/**
 The broker's manager as an object: its work queues, its table of siblings, and the loops that fill
 and drain them.  One call of HandlePending is one pass of PendingMessages.
 */
module RSBrokerManager {
  import opened PendingMessages

  // ---- the ordered set of names ----

  predicate Sorted(names: seq<Name>) {
    forall i, j :: 0 <= i < j < |names| ==> Less(names[i], names[j])
  }

  lemma {:induction false} LessIsStrict(a: Name, b: Name)
    ensures !(Less(a, b) && Less(b, a)) && (a == b ==> !Less(a, b))
    decreases |a|
  {
    if a != [] && b != [] && a[0] == b[0] { LessIsStrict(a[1..], b[1..]); }
  }

  lemma {:induction false} LessIsTotal(a: Name, b: Name)
    ensures a == b || Less(a, b) || Less(b, a)
    decreases |a|
  {
    if a != [] && b != [] && a[0] == b[0] {
      LessIsTotal(a[1..], b[1..]);
      assert a == [a[0]] + a[1..] && b == [b[0]] + b[1..];
    }
  }

  lemma {:induction false} LessIsTransitive(a: Name, b: Name, c: Name)
    requires Less(a, b) && Less(b, c)
    ensures Less(a, c)
    decreases |a|
  {
    if a != [] && a[0] == b[0] && b[0] == c[0] { LessIsTransitive(a[1..], b[1..], c[1..]); }
  }

  /** The order is the one of a dictionary: a proper beginning comes first, else the first letter that differs decides. */
  lemma {:induction false} LessIff(a: Name, b: Name)
    ensures Less(a, b) <==>
      (|a| < |b| && a == b[..|a|])
      || exists k :: 0 <= k < |a| && k < |b| && a[..k] == b[..k] && a[k] < b[k]
    decreases |a|
  {
    if a != [] && b != [] {
      if a[0] == b[0] {
        LessIff(a[1..], b[1..]);
        var a', b' := a[1..], b[1..];
        assert a == [a[0]] + a' && b == [b[0]] + b';
        if k :| 0 <= k < |a'| && k < |b'| && a'[..k] == b'[..k] && a'[k] < b'[k] {
          assert a[..k + 1] == [a[0]] + a'[..k] && b[..k + 1] == [b[0]] + b'[..k];
          assert a[..k + 1] == b[..k + 1] && a[k + 1] < b[k + 1];
        }
        if k :| 0 <= k < |a| && k < |b| && a[..k] == b[..k] && a[k] < b[k] {
          assert a'[..k - 1] == a[..k][1..] && b'[..k - 1] == b[..k][1..];
          assert a'[..k - 1] == b'[..k - 1] && a'[k - 1] < b'[k - 1];
        }
        if |a| < |b| && a == b[..|a|] { assert a' == b[..|a|][1..] == b'[..|a'|]; }
      } else {
        assert a[..0] == b[..0];
        assert |a| < |b| ==> b[..|a|][0] == b[0];
        forall k | 0 < k < |a| && k < |b| ensures a[..k] != b[..k] {
          assert a[..k][0] == a[0] && b[..k][0] == b[0];
        }
      }
    }
  }

  /** Inserting keeps the order and adds exactly the name; a name that is there is not added again. */
  lemma {:induction false} InsertIsSetInsert(names: seq<Name>, name: Name)
    requires Sorted(names)
    ensures Sorted(Insert(names, name))
    ensures forall n :: n in Insert(names, name) <==> n in names || n == name
    ensures |Insert(names, name)| == |names| + (if name in names then 0 else 1)
    decreases names
  {
    hide Less;
    if names != [] && names[0] != name {
      if Less(name, names[0]) {
        forall j | 0 <= j < |names| ensures Less(name, names[j]) && name != names[j] {
          if j > 0 { LessIsTransitive(name, names[0], names[j]); }
          LessIsStrict(name, names[j]);
        }
      } else {
        LessIsTotal(name, names[0]);
        InsertIsSetInsert(names[1..], name);
        var rest := Insert(names[1..], name);
        forall j | 0 <= j < |rest| ensures Less(names[0], rest[j]) {
          assert rest[j] in rest;
        }
        assert names == [names[0]] + names[1..];
      }
    }
  }

  /** The consumers of a group end up in its entry of the table, each once and in order. */
  lemma {:induction false} SiblingsAreConsumers(siblings: map<Name, seq<Name>>, group: Name, consumers: seq<Name>)
    requires group in siblings && Sorted(siblings[group])
    ensures var table := WithSiblings(siblings, group, consumers);
      && table.Keys == siblings.Keys && Sorted(table[group])
      && (forall n :: n in table[group] <==> n in siblings[group] || n in consumers)
      && (forall g :: g in siblings && g != group ==> table[g] == siblings[g])
    decreases consumers
  {
    hide Sorted, Insert;
    if consumers != [] {
      InsertIsSetInsert(siblings[group], consumers[0]);
      SiblingsAreConsumers(siblings[group := Insert(siblings[group], consumers[0])], group, consumers[1..]);
    }
  }

  /** Whether an entry of the table names a sibling: it has another name, and the first such is not empty. */
  lemma {:induction false} SiblingIff(names: seq<Name>, consumer: Name)
    requires Sorted(names)
    ensures FirstOther(names, consumer) != "" <==>
      (exists n :: n in names && n != consumer) && !("" in names && consumer != "")
    ensures var first := FirstOther(names, consumer);
      first != "" ==> forall n :: n in names && n != consumer && n != first ==> Less(first, n)
    decreases names
  {
    if names != [] {
      assert names == [names[0]] + names[1..];
      assert forall j :: 0 < j < |names| ==> Less(names[0], names[j]);
      if names[0] == consumer {
        SiblingIff(names[1..], consumer);
        assert "" !in names[1..];
        assert forall n :: n in names && n != consumer ==> n in names[1..];
        forall n | n in names[1..] ensures n in names && n != consumer {
          LessIsStrict(consumer, n);
        }
      } else {
        assert names[0] in names;
        assert forall n :: n in names[1..] ==> n != "";
      }
    }
  }

  // ---- the manager ----

  class BrokerManager {
    var server: Server
    var napMilliseconds: nat
    var limits: Limits
    var keys: seq<Name>
    var pendingGroupQueue: seq<(Name, Name)>
    var pendingConsumerQueue: seq<Visit>
    var pendingGroupsSibling: map<Name, seq<Name>>
    var log: seq<Act>

    ghost predicate Valid()
      reads this
    {
      Sorted(keys) && pendingGroupQueue == [] && pendingConsumerQueue == []
    }

    ghost function Value(): Manager
      reads this
    {
      Manager(server, pendingGroupsSibling, limits, log)
    }

    constructor (server: Server)
      ensures Valid() && keys == [] && napMilliseconds == 1000
      ensures Value() == Manager(server, map[], Limits(10000, 5000, 3), [])
    {
      this.server := server;
      napMilliseconds := 1000;
      limits := Limits(10000, 5000, 3);
      keys := [];
      pendingGroupQueue := [];
      pendingConsumerQueue := [];
      pendingGroupsSibling := map[];
      log := [];
    }

    method SetNapSecond(milliseconds: nat)
      modifies this`napMilliseconds
      ensures napMilliseconds > 10
      ensures milliseconds > 10 ==> napMilliseconds == milliseconds
      ensures milliseconds <= 10 ==> napMilliseconds == 1000
    {
      napMilliseconds := if milliseconds > 10 then milliseconds else 1000;
    }

    method SetTolerantTime(milliseconds: nat)
      modifies this`limits
      ensures limits.tolerant >= 8000 && limits == old(limits).(tolerant := limits.tolerant)
      ensures milliseconds >= 8000 ==> limits.tolerant == milliseconds
      ensures milliseconds < 8000 ==> limits.tolerant == 10000
    {
      limits := limits.(tolerant := if milliseconds >= 8000 then milliseconds else 10000);
    }

    method SetTransferTime(milliseconds: nat)
      modifies this`limits
      ensures limits.transfer >= 1000 && limits == old(limits).(transfer := limits.transfer)
      ensures milliseconds >= 1000 ==> limits.transfer == milliseconds
      ensures milliseconds < 1000 ==> limits.transfer == 1000
    {
      limits := limits.(transfer := if milliseconds > 1000 then milliseconds else 1000);
    }

    method SetMaxDelivered(maxDelivered: nat)
      modifies this`limits
      ensures limits.maxDelivered >= 3 && limits == old(limits).(maxDelivered := limits.maxDelivered)
      ensures maxDelivered >= 3 ==> limits.maxDelivered == maxDelivered
      ensures maxDelivered < 3 ==> limits.maxDelivered == 3
    {
      limits := limits.(maxDelivered := if maxDelivered >= 3 then maxDelivered else 3);
    }

    method RegisterKey(key: Name) returns (added: bool)
      requires Valid()
      modifies this`keys
      ensures Valid() && added == (key !in old(keys))
      ensures forall k :: k in keys <==> k in old(keys) || k == key
    {
      InsertIsSetInsert(keys, key);
      var count := |keys|;
      keys := Insert(keys, key);
      added := |keys| > count;
    }

    method PushPendingGroups(key: Name)
      modifies this`pendingGroupQueue, this`pendingGroupsSibling
      ensures pendingGroupQueue == old(pendingGroupQueue) + PendingGroups(server, key, GroupsOf(server, key))
      ensures pendingGroupsSibling == EmptySiblings(old(pendingGroupsSibling), GroupsOf(server, key))
    {
      var groups := GroupsOf(server, key);
      ghost var all := pendingGroupQueue + PendingGroups(server, key, groups);
      ghost var table := EmptySiblings(pendingGroupsSibling, groups);
      assert groups[0..] == groups;
      for i := 0 to |groups|
        invariant pendingGroupQueue + PendingGroups(server, key, groups[i..]) == all
        invariant EmptySiblings(pendingGroupsSibling, groups[i..]) == table
      {
        assert groups[i..][0] == groups[i] && groups[i..][1..] == groups[i + 1..];
        if InGroup(server.pending, key, groups[i]) != [] {
          pendingGroupQueue := pendingGroupQueue + [(key, groups[i])];
        }
        pendingGroupsSibling := pendingGroupsSibling[groups[i] := []];
      }
    }

    method PushPendingConsumers(key: Name, group: Name)
      modifies this`pendingConsumerQueue, this`pendingGroupsSibling
      ensures pendingConsumerQueue
        == old(pendingConsumerQueue) + PendingConsumers(server, (key, group), ConsumersOf(server, (key, group)))
      ensures pendingGroupsSibling == WithSiblings(old(pendingGroupsSibling), group, ConsumersOf(server, (key, group)))
    {
      hide Held, Insert;
      var consumers := ConsumersOf(server, (key, group));
      ghost var all := pendingConsumerQueue + PendingConsumers(server, (key, group), consumers);
      ghost var table := WithSiblings(pendingGroupsSibling, group, consumers);
      assert consumers[0..] == consumers;
      for i := 0 to |consumers|
        invariant pendingConsumerQueue + PendingConsumers(server, (key, group), consumers[i..]) == all
        invariant WithSiblings(pendingGroupsSibling, group, consumers[i..]) == table
      {
        assert consumers[i..][0] == consumers[i] && consumers[i..][1..] == consumers[i + 1..];
        var held := Held(server.pending, key, group, consumers[i]);
        if |held| > 0 {
          pendingConsumerQueue := pendingConsumerQueue + [Visit(key, group, consumers[i], |held|)];
        }
        if group in pendingGroupsSibling {
          pendingGroupsSibling := pendingGroupsSibling[group := Insert(pendingGroupsSibling[group], consumers[i])];
        }
      }
    }

    method GetOneSibling(group: Name, consumer: Name) returns (sibling: Name)
      ensures sibling == Sibling(pendingGroupsSibling, group, consumer)
    {
      sibling := "";
      if group in pendingGroupsSibling {
        var names := pendingGroupsSibling[group];
        assert names[0..] == names;
        for i := 0 to |names|
          invariant FirstOther(names[i..], consumer) == FirstOther(names, consumer)
        {
          assert names[i..][0] == names[i] && names[i..][1..] == names[i + 1..];
          if names[i] != consumer { return names[i]; }
        }
      }
    }

    method HandleOne(item: Pending)
      modifies this`server, this`log
      ensures Value() == HandleItem(old(Value()), item)
    {
      if item.delivered > limits.maxDelivered {
        log := log + [GaveUp(item)];
        server := Ack(server, item);
        server := Del(server, item);
        return;
      }
      if item.idle > limits.tolerant {
        log := log + [Acknowledged(item)];
        server := Ack(server, item);
        return;
      }
      if item.idle > limits.transfer {
        var sibling := GetOneSibling(item.group, item.consumer);
        if sibling != "" {
          log := log + [Claimed(item, sibling)];
          server := Claim(server, item, sibling);
        }
      }
    }

    method HandleVisit(v: Visit)
      modifies this`server, this`log
      ensures Value() == HandleItems(old(Value()), GetPending(old(server), v.key, v.group, v.consumer, v.count))
    {
      hide HandleItem, GetPending;
      var items := GetPending(server, v.key, v.group, v.consumer, v.count);
      ghost var done := HandleItems(Value(), items);
      assert items[0..] == items;
      for i := 0 to |items|
        invariant HandleItems(Value(), items[i..]) == done
        invariant pendingGroupsSibling == old(pendingGroupsSibling) && limits == old(limits)
      {
        assert items[i..][0] == items[i] && items[i..][1..] == items[i + 1..];
        HandleOne(items[i]);
      }
    }

    method CollectGroups()
      modifies this`pendingGroupQueue, this`pendingGroupsSibling
      ensures pendingGroupQueue == old(pendingGroupQueue) + AllPendingGroups(server, keys)
      ensures pendingGroupsSibling == AllEmptySiblings(server, old(pendingGroupsSibling), keys)
    {
      hide PendingGroups, EmptySiblings;
      ghost var all := pendingGroupQueue + AllPendingGroups(server, keys);
      ghost var table := AllEmptySiblings(server, pendingGroupsSibling, keys);
      assert keys[0..] == keys;
      for i := 0 to |keys|
        invariant pendingGroupQueue + AllPendingGroups(server, keys[i..]) == all
        invariant AllEmptySiblings(server, pendingGroupsSibling, keys[i..]) == table
      {
        assert keys[i..][0] == keys[i] && keys[i..][1..] == keys[i + 1..];
        PushPendingGroups(keys[i]);
      }
    }

    method CollectConsumers()
      modifies this`pendingGroupQueue, this`pendingConsumerQueue, this`pendingGroupsSibling
      ensures pendingGroupQueue == []
      ensures pendingConsumerQueue == old(pendingConsumerQueue) + AllVisits(server, old(pendingGroupQueue))
      ensures pendingGroupsSibling == AllSiblings(server, old(pendingGroupsSibling), old(pendingGroupQueue))
    {
      hide PendingConsumers, WithSiblings;
      while pendingGroupQueue != []
        invariant pendingConsumerQueue + AllVisits(server, pendingGroupQueue)
          == old(pendingConsumerQueue) + AllVisits(server, old(pendingGroupQueue))
        invariant AllSiblings(server, pendingGroupsSibling, pendingGroupQueue)
          == AllSiblings(server, old(pendingGroupsSibling), old(pendingGroupQueue))
        decreases |pendingGroupQueue|
      {
        PushPendingConsumers(pendingGroupQueue[0].0, pendingGroupQueue[0].1);
        pendingGroupQueue := pendingGroupQueue[1..];
      }
    }

    /** One pass over all registered keys; both queues are empty again afterwards. */
    method HandlePending()
      requires Valid()
      modifies this`server, this`log, this`pendingGroupQueue, this`pendingConsumerQueue, this`pendingGroupsSibling
      ensures Valid() && Value() == Pass(old(Value()), keys)
    {
      hide AllVisits, AllPendingGroups, AllSiblings, AllEmptySiblings, HandleItems, GetPending;
      CollectGroups();
      ghost var gs := pendingGroupQueue;
      assert gs == AllPendingGroups(server, keys);
      CollectConsumers();
      assert pendingConsumerQueue == AllVisits(server, gs);
      ghost var done := HandleVisits(Value(), pendingConsumerQueue);
      while pendingConsumerQueue != []
        invariant HandleVisits(Value(), pendingConsumerQueue) == done
        invariant pendingGroupQueue == []
        decreases |pendingConsumerQueue|
      {
        HandleVisit(pendingConsumerQueue[0]);
        pendingConsumerQueue := pendingConsumerQueue[1..];
      }
    }
  }
}
