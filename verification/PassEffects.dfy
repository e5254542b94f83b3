/**
 What a pass of the broker's manager does to the server.  Every act it logs is one change of the
 list of pending messages, the changes come in the order of the log, and there are no others.
 The effects are written out on the list itself, entry by entry.
 */
module PassEffects {
  import opened PendingMessages
  import opened RSBrokerManager
  import opened SharedSiblings

  // ---- the effect of one act ----

  /** The entry leaves the list and every other one stays in its place. */
  ghost predicate Leaves(s: Server, s': Server, item: Pending) {
    && s'.groups == s.groups && s'.consumers == s.consumers
    && exists i :: 0 <= i < |s.pending| && s.pending[i] == item && s'.pending == s.pending[..i] + s.pending[i + 1..]
  }

  /** The same entry under its new holder. */
  function Taken(item: Pending, to: Name): Pending {
    Pending(item.key, item.group, item.id, to, 0, item.delivered + 1)
  }

  /** The entry changes its holder in its place, who then is a consumer of the group. */
  ghost predicate ChangesHolder(s: Server, s': Server, item: Pending, to: Name) {
    && s'.groups == s.groups && s'.stored == s.stored
    && (exists i :: 0 <= i < |s.pending| && s.pending[i] == item && s'.pending == s.pending[i := Taken(item, to)])
    && (forall g: (Name, Name), n: Name ::
          n in ConsumersOf(s', g) <==> n in ConsumersOf(s, g) || (g == (item.key, item.group) && n == to))
  }

  /** What an act in the log means for the server. */
  ghost predicate Effect(s: Server, act: Act, s': Server) {
    match act
    case GaveUp(item) => Leaves(s, s', item) && s'.stored == s.stored - {(item.key, item.id)}
    case Acknowledged(item) => Leaves(s, s', item) && s'.stored == s.stored
    case Claimed(item, to) => ChangesHolder(s, s', item, to)
  }

  lemma {:induction false} NoneOfId(pending: seq<Pending>, item: Pending)
    requires forall i :: 0 <= i < |pending| ==> !Is(pending[i], item)
    ensures Without(pending, item) == pending
    decreases pending
  {
    if pending != [] { NoneOfId(pending[1..], item); }
  }

  lemma {:induction false} WithoutAt(pending: seq<Pending>, item: Pending, i: nat)
    requires Unique(pending) && i < |pending| && pending[i] == item
    ensures Without(pending, item) == pending[..i] + pending[i + 1..]
    decreases pending
  {
    if i == 0 {
      NoneOfId(pending[1..], item);
    } else {
      WithoutAt(pending[1..], item, i - 1);
      assert pending[..i] == [pending[0]] + pending[1..][..i - 1];
    }
  }

  lemma {:induction false} HandedAt(pending: seq<Pending>, item: Pending, to: Name, i: nat)
    requires Unique(pending) && i < |pending| && pending[i] == item
    ensures Handed(pending, item, to) == pending[i := Taken(item, to)]
  {
    HandedShape(pending, item, to);
    forall j | 0 <= j < |pending| ensures Handed(pending, item, to)[j] == pending[i := Taken(item, to)][j] {
      if j < i { assert !Is(pending[j], pending[i]); } else if j > i { assert !Is(pending[i], pending[j]); }
    }
  }

  /** A message handled as it was seen: what the manager adds to the log is what happens on the server. */
  lemma {:induction false} ItemEffect(m: Manager, item: Pending)
    requires Unique(m.server.pending) && item in m.server.pending
    ensures var s, s', to := m.server, HandleItem(m, item).server, Sibling(m.siblings, item.group, item.consumer);
      if item.delivered > m.limits.maxDelivered then Effect(s, GaveUp(item), s')
      else if item.idle > m.limits.tolerant then Effect(s, Acknowledged(item), s')
      else if item.idle > m.limits.transfer && to != "" then Effect(s, Claimed(item, to), s')
      else s' == s
  {
    hide Sibling, Without, Handed;
    var i :| 0 <= i < |m.server.pending| && m.server.pending[i] == item;
    WithoutAt(m.server.pending, item, i);
    HandedAt(m.server.pending, item, Sibling(m.siblings, item.group, item.consumer), i);
  }

  // ---- the effect of a pass ----

  /** The server after is the server before with exactly these acts applied, in order. */
  ghost predicate Replays(s: Server, acts: seq<Act>, s': Server)
    decreases acts
  {
    if acts == [] then s' == s else exists s1 :: Effect(s, acts[0], s1) && Replays(s1, acts[1..], s')
  }

  lemma {:induction false} ReplaysAppend(s: Server, a: seq<Act>, s1: Server, b: seq<Act>, s': Server)
    requires Replays(s, a, s1) && Replays(s1, b, s')
    ensures Replays(s, a + b, s')
    decreases a
  {
    hide Effect;
    if a == [] {
      assert a + b == b;
    } else {
      var s0 :| Effect(s, a[0], s0) && Replays(s0, a[1..], s1);
      ReplaysAppend(s0, a[1..], s1, b, s');
      assert (a + b)[0] == a[0] && (a + b)[1..] == a[1..] + b;
    }
  }

  lemma {:induction false} ItemReplays(m: Manager, item: Pending)
    requires Unique(m.server.pending) && item in m.server.pending
    ensures Replays(m.server, Decision(m.limits, m.siblings, item), HandleItem(m, item).server)
  {
    ItemEffect(m, item);
    hide Effect, HandleItem, Sibling;
    var d := Decision(m.limits, m.siblings, item);
    if d != [] {
      assert |d| == 1 && d[1..] == [];
      assert Replays(HandleItem(m, item).server, [], HandleItem(m, item).server);
      assert Effect(m.server, d[0], HandleItem(m, item).server);
    }
  }

  lemma {:induction false} ItemsReplay(m: Manager, items: seq<Pending>)
    requires Unique(m.server.pending) && Unique(items) && AllIn(items, m.server.pending)
    ensures Replays(m.server, Decisions(m.limits, m.siblings, items), HandleItems(m, items).server)
    ensures Unique(HandleItems(m, items).server.pending)
    decreases items
  {
    hide HandleItem, Decision, Replays;
    if items == [] {
      assert Replays(m.server, [], m.server) by { NothingReplays(m.server); }
    } else {
      var m1 := HandleItem(m, items[0]);
      ItemLog(m, items[0]);
      ItemReplays(m, items[0]);
      HandleItemKeepsOthers(m, items[0], items[0]);
      forall i | 0 <= i < |items[1..]| ensures items[1..][i] in m1.server.pending {
        HandleItemKeepsOthers(m, items[0], items[i + 1]);
      }
      ItemsReplay(m1, items[1..]);
      ReplaysAppend(m.server, Decision(m.limits, m.siblings, items[0]), m1.server,
                    Decisions(m.limits, m.siblings, items[1..]), HandleItems(m, items).server);
    }
  }

  lemma NothingReplays(s: Server)
    ensures Replays(s, [], s)
  {
  }

  lemma {:induction false} VisitsReplay(m: Manager, visits: seq<Visit>)
    requires Unique(m.server.pending)
    ensures Replays(m.server, Decisions(m.limits, m.siblings, Looked(m, visits)), HandleVisits(m, visits).server)
    ensures Unique(HandleVisits(m, visits).server.pending)
    decreases visits
  {
    hide HandleItems, GetPending, Decision, Decisions, Replays;
    if visits == [] {
      NothingReplays(m.server);
      NoDecisions(m);
    } else {
      var v := visits[0];
      var items := GetPending(m.server, v.key, v.group, v.consumer, v.count);
      var m1 := HandleItems(m, items);
      GetPendingOk(m.server, v);
      ItemsLog(m, items);
      ItemsReplay(m, items);
      VisitsReplay(m1, visits[1..]);
      DecisionsAppend(m.limits, m.siblings, items, Looked(m1, visits[1..]));
      ReplaysAppend(m.server, Decisions(m.limits, m.siblings, items), m1.server,
                    Decisions(m.limits, m.siblings, Looked(m1, visits[1..])), HandleVisits(m, visits).server);
    }
  }

  lemma NoDecisions(m: Manager)
    ensures Decisions(m.limits, m.siblings, []) == []
  {
  }

  /**
   A pass changes the server by exactly the acts it adds to the log, each once and in that order:
   who is claimed changes holder there, who is given up or acknowledged leaves, and nobody else.
   */
  lemma {:induction false} PassReplays(m: Manager, keys: seq<Name>)
    requires Unique(m.server.pending)
    ensures Replays(m.server, Added(m, keys), Pass(m, keys).server) && Unique(Pass(m, keys).server.pending)
  {
    hide Replays, Added, Looked, HandleVisits, AllVisits, Table, Decisions;
    AddedIs(m, keys);
    PassIs(m, keys);
    VisitsReplay(m.(siblings := Table(m, keys)), AllVisits(m.server, AllPendingGroups(m.server, keys)));
  }

  // ---- what becomes of one message ----

  predicate AboutId(act: Act, p: Pending) { Is(act.item, p) }

  predicate NoneAbout(acts: seq<Act>, p: Pending) { forall i :: 0 <= i < |acts| ==> !AboutId(acts[i], p) }

  lemma {:induction false} OthersDiffer(pending: seq<Pending>, i: nat)
    requires Unique(pending) && i < |pending|
    ensures forall j :: 0 <= j < |pending| && j != i ==> !Is(pending[i], pending[j])
  {
    forall j | 0 <= j < |pending| && j != i ensures !Is(pending[i], pending[j]) {
      if j < i { assert !Is(pending[j], pending[i]); }
    }
  }

  lemma {:induction false} RemovedHas(pending: seq<Pending>, i: nat, rest: seq<Pending>)
    requires Unique(pending) && i < |pending| && rest == pending[..i] + pending[i + 1..]
    ensures Unique(rest)
    ensures forall p :: p in rest <==> p in pending && !Is(pending[i], p)
  {
    OthersDiffer(pending, i);
    hide Is;
    assert Is(pending[i], pending[i]) by { SameIs(pending[i]); }
    assert forall j :: 0 <= j < |rest| ==> rest[j] == pending[if j < i then j else j + 1];
    forall p | p in pending && !Is(pending[i], p) ensures p in rest {
      var j :| 0 <= j < |pending| && pending[j] == p;
      assert rest[if j < i then j else j - 1] == p;
    }
  }

  lemma SameIs(p: Pending)
    ensures Is(p, p)
  {
  }

  lemma {:induction false} ReplacedHas(pending: seq<Pending>, i: nat, p': Pending)
    requires Unique(pending) && i < |pending| && Is(pending[i], p')
    ensures Unique(pending[i := p'])
    ensures forall p :: p in pending[i := p'] <==> p == p' || (p in pending && !Is(pending[i], p))
  {
    OthersDiffer(pending, i);
    var next := pending[i := p'];
    assert next[i] == p';
    forall p | p in pending && !Is(pending[i], p) ensures p in next {
      var j :| 0 <= j < |pending| && pending[j] == p;
      assert next[j] == p;
    }
  }

  lemma {:induction false} EffectKeepsUnique(s: Server, act: Act, s': Server)
    requires Unique(s.pending) && Effect(s, act, s')
    ensures Unique(s'.pending) && act.item in s.pending
    ensures forall p ::
      p in s'.pending <==> (p in s.pending && !Is(act.item, p)) || (act.Claimed? && p == Taken(act.item, act.to))
  {
    hide Unique, Is, ConsumersOf;
    if act.Claimed? {
      var i :| 0 <= i < |s.pending| && s.pending[i] == act.item && s'.pending == s.pending[i := Taken(act.item, act.to)];
      TakenIs(act.item, act.to);
      ReplacedHas(s.pending, i, Taken(act.item, act.to));
    } else {
      var i :| 0 <= i < |s.pending| && s.pending[i] == act.item && s'.pending == s.pending[..i] + s.pending[i + 1..];
      RemovedHas(s.pending, i, s'.pending);
    }
  }

  lemma TakenIs(item: Pending, to: Name)
    ensures Is(item, Taken(item, to))
  {
  }

  /** A message no act is about stays exactly as it was, and no other message appears. */
  lemma {:induction false} UntouchedStays(s: Server, acts: seq<Act>, s': Server, p: Pending)
    requires Unique(s.pending) && Replays(s, acts, s') && NoneAbout(acts, p)
    ensures p in s'.pending <==> p in s.pending
    decreases acts
  {
    hide Effect, Unique, Is;
    if acts != [] {
      var s1 :| Effect(s, acts[0], s1) && Replays(s1, acts[1..], s');
      assert !AboutId(acts[0], p);
      EffectKeepsUnique(s, acts[0], s1);
      if acts[0].Claimed? { TakenIs(acts[0].item, acts[0].to); }
      forall i | 0 <= i < |acts[1..]| ensures !AboutId(acts[1..][i], p) {
        assert !AboutId(acts[i + 1], p);
      }
      UntouchedStays(s1, acts[1..], s', p);
    }
  }

  /** An id that is not in the list does not come back, and nothing is done about it. */
  lemma {:induction false} GoneStaysGone(s: Server, acts: seq<Act>, s': Server, p: Pending)
    requires Unique(s.pending) && Replays(s, acts, s')
    requires forall q :: q in s.pending ==> !Is(q, p)
    ensures forall q :: q in s'.pending ==> !Is(q, p)
    ensures NoneAbout(acts, p)
    decreases acts
  {
    hide Effect, Unique;
    if acts != [] {
      var s1 :| Effect(s, acts[0], s1) && Replays(s1, acts[1..], s');
      EffectKeepsUnique(s, acts[0], s1);
      forall q | q in s1.pending ensures !Is(q, p) {
        if Is(acts[0].item, q) { assert Is(acts[0].item, q) ==> Is(acts[0].item, p) || !Is(q, p); }
      }
      GoneStaysGone(s1, acts[1..], s', p);
    }
  }

  predicate LawfulActs(limits: Limits, acts: seq<Act>) { forall i :: 0 <= i < |acts| ==> Lawful(limits, acts[i]) }

  /** A message that was just handed on stays with its new holder, unless it is then given up. */
  lemma {:induction false} FreshStays(limits: Limits, s: Server, acts: seq<Act>, s': Server, p: Pending)
    requires Unique(s.pending) && Replays(s, acts, s') && LawfulActs(limits, acts)
    requires p in s.pending && p.idle == 0
    ensures if GaveUp(p) in acts then p.delivered > limits.maxDelivered && forall q :: q in s'.pending ==> !Is(q, p)
            else p in s'.pending
    decreases acts
  {
    hide Effect, Unique;
    if acts != [] {
      var s1 :| Effect(s, acts[0], s1) && Replays(s1, acts[1..], s');
      EffectKeepsUnique(s, acts[0], s1);
      assert Lawful(limits, acts[0]);
      forall i | 0 <= i < |acts[1..]| ensures Lawful(limits, acts[1..][i]) {
        assert Lawful(limits, acts[i + 1]);
      }
      if Is(acts[0].item, p) {
        OnlyOne(s.pending, p, acts[0].item);
        assert acts[0] == GaveUp(p);
        forall q | q in s1.pending ensures !Is(q, p) {
          assert Is(q, p) ==> Is(acts[0].item, q);
        }
        GoneStaysGone(s1, acts[1..], s', p);
      } else {
        FreshStays(limits, s1, acts[1..], s', p);
        assert acts == [acts[0]] + acts[1..];
      }
    }
  }

  /** Consumers are never forgotten, and the groups of a key stay. */
  lemma {:induction false} ConsumersStay(s: Server, acts: seq<Act>, s': Server, g: (Name, Name), name: Name)
    requires Replays(s, acts, s') && name in ConsumersOf(s, g)
    ensures name in ConsumersOf(s', g)
    decreases acts
  {
    hide Effect, ConsumersOf;
    if acts != [] {
      var s1 :| Effect(s, acts[0], s1) && Replays(s1, acts[1..], s');
      ConsumerStays(s, acts[0], s1, g, name);
      ConsumersStay(s1, acts[1..], s', g, name);
    }
  }

  lemma {:induction false} ConsumerStays(s: Server, act: Act, s': Server, g: (Name, Name), name: Name)
    requires Effect(s, act, s') && name in ConsumersOf(s, g)
    ensures name in ConsumersOf(s', g)
  {
  }

  lemma {:induction false} SplitAtAct(s: Server, acts: seq<Act>, s': Server, k: nat) returns (s1: Server, s2: Server)
    requires Replays(s, acts, s') && k < |acts| && Unique(s.pending)
    ensures Effect(s1, acts[k], s2) && Replays(s2, acts[k + 1..], s') && Unique(s1.pending) && Unique(s2.pending)
    ensures Replays(s, acts[..k], s1)
    decreases acts
  {
    hide Effect, Unique;
    var next :| Effect(s, acts[0], next) && Replays(next, acts[1..], s');
    EffectKeepsUnique(s, acts[0], next);
    if k == 0 {
      s1, s2 := s, next;
    } else {
      s1, s2 := SplitAtAct(next, acts[1..], s', k - 1);
      assert acts[1..][k - 1] == acts[k] && acts[1..][k..] == acts[k + 1..];
      assert acts[..k][0] == acts[0] && acts[..k][1..] == acts[1..][..k - 1];
    }
  }

  lemma {:induction false} LaterLawful(limits: Limits, acts: seq<Act>, k: nat)
    requires k <= |acts| && LawfulActs(limits, acts)
    ensures LawfulActs(limits, acts[k..])
  {
    hide Lawful;
  }

  lemma {:induction false} DecisionsLawful(limits: Limits, table: map<Name, seq<Name>>, items: seq<Pending>)
    ensures LawfulActs(limits, Decisions(limits, table, items))
    decreases items
  {
    if items != [] {
      DecisionsLawful(limits, table, items[1..]);
      if items[0].group in table { FirstOtherIsOther(table[items[0].group], items[0].consumer); }
      hide Sibling;
      var first, rest := Decision(limits, table, items[0]), Decisions(limits, table, items[1..]);
      DecisionLawful(limits, table, items[0]);
      forall i | 0 <= i < |first + rest| ensures Lawful(limits, (first + rest)[i]) {
        if i >= |first| { assert (first + rest)[i] == rest[i - |first|]; }
      }
    }
  }

  lemma {:induction false} DecisionLawful(limits: Limits, table: map<Name, seq<Name>>, item: Pending)
    ensures forall i :: 0 <= i < |Decision(limits, table, item)| ==> Lawful(limits, Decision(limits, table, item)[i])
  {
    if item.group in table { FirstOtherIsOther(table[item.group], item.consumer); }
  }

  /** The list holds exactly one entry of the message's id, and it is this one. */
  ghost predicate Only(s: Server, p: Pending) {
    multiset(s.pending)[p] == 1 && forall q :: q in s.pending && Is(q, p) ==> q == p
  }

  lemma {:induction false} UniqueIsOnly(s: Server, p: Pending)
    requires Unique(s.pending) && p in s.pending
    ensures Only(s, p)
  {
    var i :| 0 <= i < |s.pending| && s.pending[i] == p;
    forall q | q in s.pending && Is(q, p) ensures q == p { OnlyOne(s.pending, p, q); }
    assert s.pending == s.pending[..i] + [p] + s.pending[i + 1..];
    forall j | 0 <= j < |s.pending| && j != i ensures s.pending[j] != p {
      if j < i { assert !Is(s.pending[j], s.pending[i]); } else { assert !Is(s.pending[i], s.pending[j]); }
    }
    assert p !in s.pending[..i] && p !in s.pending[i + 1..];
  }

  /**
   Each claim a pass logs is a change of holder on the server: at the end the message's only entry is
   with the named consumer, no longer idle and delivered once more, and that consumer is one of its
   group; unless this delivery was one too many and the same pass looked at the message again.
   */
  lemma {:induction false} ClaimLands(m: Manager, keys: seq<Name>, item: Pending, to: Name)
    requires Unique(m.server.pending) && Claimed(item, to) in Added(m, keys)
    ensures var s', p := Pass(m, keys).server, Pending(item.key, item.group, item.id, to, 0, item.delivered + 1);
      && to in ConsumersOf(s', (item.key, item.group)) && to != item.consumer
      && if item.delivered == m.limits.maxDelivered && p in Visited(m, keys)
         then GaveUp(p) in Added(m, keys) && forall q :: q in s'.pending ==> !Is(q, item)
         else Only(s', p)
  {
    hide Replays, Added, Effect, Lawful, Pass, Decisions, Unique, Only, Visited;
    var acts, s', p := Added(m, keys), Pass(m, keys).server, Taken(item, to);
    PassReplays(m, keys);
    AddedIs(m, keys);
    DecisionsLawful(m.limits, Table(m, keys), Visited(m, keys));
    DecidedGivenUp(m.limits, Table(m, keys), Visited(m, keys), p);
    var k :| 0 <= k < |acts| && acts[k] == Claimed(item, to);
    assert Lawful(m.limits, acts[k]);
    ClaimLawful(m.limits, item, to);
    var s1, s2 := SplitAtAct(m.server, acts, s', k);
    EffectKeepsUnique(s1, acts[k], s2);
    assert to in ConsumersOf(s2, (item.key, item.group)) by { NewConsumer(s1, item, to, s2); }
    ConsumersStay(s2, acts[k + 1..], s', (item.key, item.group), to);
    assert LawfulActs(m.limits, acts[k + 1..]) by { LaterLawful(m.limits, acts, k + 1); }
    FreshStays(m.limits, s2, acts[k + 1..], s', p);
    if GaveUp(p) in acts[k + 1..] {
      assert acts[k + 1..] <= acts[k + 1..];
      assert forall x :: x in acts[k + 1..] ==> x in acts;
      assert forall q :: Is(q, item) <==> Is(q, p);
    } else {
      UniqueIsOnly(s', p);
      if GaveUp(p) in acts { NotGivenUp(m, acts, s', p); }
    }
  }

  lemma {:induction false} DecidedGivenUp(limits: Limits, table: map<Name, seq<Name>>, items: seq<Pending>, item: Pending)
    ensures GaveUp(item) in Decisions(limits, table, items) <==> item in items && item.delivered > limits.maxDelivered
    decreases items
  {
    hide Sibling;
    if items != [] { DecidedGivenUp(limits, table, items[1..], item); }
  }

  lemma {:induction false} ClaimLawful(limits: Limits, item: Pending, to: Name)
    requires Lawful(limits, Claimed(item, to))
    ensures item.delivered <= limits.maxDelivered && to != item.consumer
  {
  }

  lemma {:induction false} NewConsumer(s: Server, item: Pending, to: Name, s': Server)
    requires Effect(s, Claimed(item, to), s')
    ensures to in ConsumersOf(s', (item.key, item.group))
  {
  }

  /** What was given up at some point is not in the list at the end. */
  lemma {:induction false} NotGivenUp(m: Manager, acts: seq<Act>, s': Server, p: Pending)
    requires Unique(m.server.pending) && Replays(m.server, acts, s') && GaveUp(p) in acts
    ensures forall q :: q in s'.pending ==> !Is(q, p)
  {
    hide Replays, Effect, Unique;
    var k :| 0 <= k < |acts| && acts[k] == GaveUp(p);
    var s1, s2 := SplitAtAct(m.server, acts, s', k);
    EffectKeepsUnique(s1, acts[k], s2);
    forall q | q in s2.pending ensures !Is(q, p) {
      assert Is(q, p) ==> Is(acts[k].item, q);
    }
    GoneStaysGone(s2, acts[k + 1..], s', p);
  }

  /** What a pass gives up or acknowledges has no entry afterwards. */
  lemma {:induction false} EndedLeaves(m: Manager, keys: seq<Name>, item: Pending)
    requires Unique(m.server.pending)
    requires GaveUp(item) in Added(m, keys) || Acknowledged(item) in Added(m, keys)
    ensures forall q :: q in Pass(m, keys).server.pending ==> !Is(q, item)
  {
    hide Replays, Effect, Unique, Added, Pass;
    PassReplays(m, keys);
    var acts, s' := Added(m, keys), Pass(m, keys).server;
    var k :| 0 <= k < |acts| && (acts[k] == GaveUp(item) || acts[k] == Acknowledged(item));
    var s1, s2 := SplitAtAct(m.server, acts, s', k);
    EffectKeepsUnique(s1, acts[k], s2);
    forall q | q in s2.pending ensures !Is(q, item) {
      assert Is(q, item) ==> Is(acts[k].item, q);
    }
    GoneStaysGone(s2, acts[k + 1..], s', item);
  }

  predicate GivesUp(acts: seq<Act>, key: Name, id: Name) {
    exists i :: 0 <= i < |acts| && acts[i].GaveUp? && acts[i].item.key == key && acts[i].item.id == id
  }

  lemma {:induction false} ReplayStored(s: Server, acts: seq<Act>, s': Server, key: Name, id: Name)
    requires Replays(s, acts, s')
    ensures (key, id) in s'.stored <==> (key, id) in s.stored && !GivesUp(acts, key, id)
    decreases acts
  {
    hide Leaves;
    if acts != [] {
      var s1 :| Effect(s, acts[0], s1) && Replays(s1, acts[1..], s');
      ReplayStored(s1, acts[1..], s', key, id);
      assert forall i :: 1 <= i < |acts| ==> acts[i] == acts[1..][i - 1];
      if GivesUp(acts[1..], key, id) {
        var i :| 0 <= i < |acts[1..]| && acts[1..][i].GaveUp? && acts[1..][i].item.key == key && acts[1..][i].item.id == id;
        assert acts[i + 1] == acts[1..][i];
      }
    }
  }

  /** A stored message is deleted by a pass if and only if the pass gives it up. */
  lemma {:induction false} StoredIff(m: Manager, keys: seq<Name>, key: Name, id: Name)
    requires Unique(m.server.pending)
    ensures (key, id) in Pass(m, keys).server.stored
       <==> (key, id) in m.server.stored && !GivesUp(Added(m, keys), key, id)
  {
    hide Replays, Added, Pass, GivesUp;
    PassReplays(m, keys);
    ReplayStored(m.server, Added(m, keys), Pass(m, keys).server, key, id);
  }

  /** A message nothing is logged about has exactly the entry it had. */
  lemma {:induction false} UnloggedStays(m: Manager, keys: seq<Name>, p: Pending)
    requires Unique(m.server.pending) && NoneAbout(Added(m, keys), p)
    ensures p in Pass(m, keys).server.pending <==> p in m.server.pending
  {
    hide Replays, Added, Pass, NoneAbout;
    PassReplays(m, keys);
    UntouchedStays(m.server, Added(m, keys), Pass(m, keys).server, p);
  }

  // ---- a claim and its giving up in one pass ----

  /** One group of one key; the first message is with b, the second with c. */
  function OneStream(first: Pending, second: Pending): Server {
    Server(map[first.key := [first.group]], map[(first.key, first.group) := ["b", "c"]], [first, second],
           {(first.key, first.id), (second.key, second.id)})
  }

  predicate TwoHeld(first: Pending, second: Pending) {
    && first.key == second.key && first.group == second.group && first.id != second.id
    && first.consumer == "b" && second.consumer == "c"
  }

  lemma {:induction false} PlannedVisitsOf(s: Server, first: Pending, second: Pending)
    requires TwoHeld(first, second) && s == OneStream(first, second)
    ensures AllPendingGroups(s, [first.key]) == [(first.key, first.group)]
    ensures AllVisits(s, [(first.key, first.group)])
         == [Visit(first.key, first.group, "b", 1), Visit(first.key, first.group, "c", 1)]
  {
    var k, g := first.key, first.group;
    InGroupHas(s.pending, k, g, first);
    assert [k][1..] == [] && [g][1..] == [];
    assert PendingGroups(s, k, [g]) == [(k, g)] + PendingGroups(s, k, []);
    assert AllPendingGroups(s, [k]) == PendingGroups(s, k, [g]) + AllPendingGroups(s, []);
    HeldFirst(first, second, "b");
    HeldFirst(first, second, "c");
    assert ["b", "c"][1..] == ["c"] && ["c"][1..] == [];
    assert PendingConsumers(s, (k, g), ["c"]) == [Visit(k, g, "c", 1)] + PendingConsumers(s, (k, g), []);
    assert PendingConsumers(s, (k, g), ["b", "c"]) == [Visit(k, g, "b", 1)] + PendingConsumers(s, (k, g), ["c"]);
    assert [(k, g)][1..] == [];
    assert AllVisits(s, [(k, g)]) == PendingConsumers(s, (k, g), ["b", "c"]) + AllVisits(s, []);
  }

  lemma {:induction false} HeldFirst(first: Pending, second: Pending, consumer: Name)
    requires first.key == second.key && first.group == second.group
    ensures Held([first, second], first.key, first.group, consumer)
         == (if first.consumer == consumer then [first] else []) + if second.consumer == consumer then [second] else []
  {
    assert [first, second][1..] == [second] && [second][1..] == [];
    assert Held([second], first.key, first.group, consumer)
        == (if second.consumer == consumer then [second] else []) + Held([], first.key, first.group, consumer);
  }

  lemma {:induction false} LooksTwice(m: Manager, first: Pending, second: Pending)
    requires TwoHeld(first, second) && m.server == OneStream(first, second) && InWindow(m.limits, first)
    requires Sibling(m.siblings, first.group, "b") == "c"
    ensures Looked(m, [Visit(first.key, first.group, "b", 1), Visit(first.key, first.group, "c", 1)])
         == [first, Taken(first, "c")]
  {
    hide Sibling;
    var k, g, taken := first.key, first.group, Taken(first, "c");
    var vb, vc := Visit(k, g, "b", 1), Visit(k, g, "c", 1);
    HeldFirst(first, second, "b");
    var m1 := HandleItem(m, first);
    assert [first][1..] == [];
    assert GetPending(m.server, k, g, "b", 1) == [first];
    assert HandleItems(m, [first]) == HandleItems(m1, []) == m1;
    HandedAt([first, second], first, "c", 0);
    assert m1.server.pending == [taken, second];
    HeldFirst(taken, second, "c");
    assert Held(m1.server.pending, k, g, "c") == [taken, second];
    assert GetPending(m1.server, k, g, "c", 1) == [taken, second][..1] == [taken];
    assert [vb, vc][1..] == [vc] && [vc][1..] == [];
    assert Looked(m1, [vc]) == [taken] + Looked(HandleItems(m1, [taken]), []);
    assert Looked(m, [vb, vc]) == [first] + Looked(m1, [vc]);
  }

  /**
   Not every claim lands: with default limits, a message on its last delivery is handed from b to c,
   and the same pass then visits c, gives the message up and deletes it, before c can have read it.
   */
  lemma {:induction false} ClaimedAndGivenUp() returns (m: Manager, keys: seq<Name>, item: Pending)
    ensures Unique(m.server.pending) && Covered(m.server, keys) && m.limits == Limits(10000, 5000, 3)
    ensures item in m.server.pending && item.delivered == 3
    ensures Added(m, keys) == [Claimed(item, "c"), GaveUp(Taken(item, "c"))]
    ensures (item.key, item.id) !in Pass(m, keys).server.stored
  {
    hide Visited, Added, Pass, Table, Looked, AllVisits, AllPendingGroups, LeastOther, Sibling, Replays;
    item := Pending("k", "g", "1", "b", 6000, 3);
    var other := Pending("k", "g", "2", "c", 0, 1);
    assert "1"[0] != "2"[0] && "b"[0] != "c"[0];
    keys := ["k"];
    m := Manager(OneStream(item, other), map[], Limits(10000, 5000, 3), []);
    OneCovered(m.server, item, other);
    PlannedVisitsOf(m.server, item, other);
    AllPendingGroupsAre(m.server, keys, ("k", "g"));
    CIsLeast(m.server, item, other);
    SiblingIsLeast(m, keys, "k", "g", "b", "c");
    LooksTwice(m.(siblings := Table(m, keys)), item, other);
    VisitedIs(m, keys, item);
    AddedIs(m, keys);
    TwoDecisions(m.limits, Table(m, keys), item);
    StoredIff(m, keys, "k", "1");
    var acts := [Claimed(item, "c"), GaveUp(Taken(item, "c"))];
    assert acts[1].GaveUp? && acts[1].item.key == "k" && acts[1].item.id == "1";
  }

  lemma VisitedIs(m: Manager, keys: seq<Name>, item: Pending)
    requires Looked(m.(siblings := Table(m, keys)), AllVisits(m.server, AllPendingGroups(m.server, keys)))
          == [item, Taken(item, "c")]
    ensures Visited(m, keys) == [item, Taken(item, "c")]
  {
  }

  lemma {:induction false} TwoDecisions(limits: Limits, table: map<Name, seq<Name>>, item: Pending)
    requires InWindow(limits, item) && item.delivered == limits.maxDelivered
    requires Sibling(table, item.group, item.consumer) == "c"
    ensures Decisions(limits, table, [item, Taken(item, "c")]) == [Claimed(item, "c"), GaveUp(Taken(item, "c"))]
  {
    var taken := Taken(item, "c");
    assert [item, taken][1..] == [taken] && [taken][1..] == [];
    assert Decisions(limits, table, [taken]) == [GaveUp(taken)] + Decisions(limits, table, []);
  }

  lemma {:induction false} OneCovered(s: Server, first: Pending, second: Pending)
    requires TwoHeld(first, second) && s == OneStream(first, second)
    ensures Unique(s.pending) && Covered(s, [first.key])
  {
  }

  lemma {:induction false} CIsLeast(s: Server, first: Pending, second: Pending)
    requires TwoHeld(first, second) && s == OneStream(first, second)
    requires Planned(s, [first.key], first.key, first.group)
    ensures LeastOther(s, [first.key], first.group, "b", "c")
  {
    assert ConsumersOf(s, (first.key, first.group)) == ["b", "c"];
    assert InUnion(s, [first.key], first.group, "c");
    assert "c"[0] != "b"[0];
  }
}
