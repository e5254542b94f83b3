/**
 The sharded hash map: a fixed row of buckets, each a list of pairs under its own lock.  A key lives
 in the bucket its hash selects.  Every operation is one atomic step on one bucket.
 */
module SafeHashmap {
  datatype Option<T> = None | Some(value: T)

  // ---- one bucket ----

  function FindIn<K(==), V>(data: seq<(K, V)>, key: K): Option<V> {
    if data == [] then None else if data[0].0 == key then Some(data[0].1) else FindIn(data[1..], key)
  }

  function InsertIn<K(==), V>(data: seq<(K, V)>, key: K, value: V): seq<(K, V)> {
    if FindIn(data, key).None? then data + [(key, value)] else data
  }

  function EraseIn<K(==), V>(data: seq<(K, V)>, key: K): seq<(K, V)> {
    if data == [] then [] else if data[0].0 == key then data[1..] else [data[0]] + EraseIn(data[1..], key)
  }

  /** What a bucket itself would do; the map never asks for it. */
  function AssignIn<K(==), V>(data: seq<(K, V)>, key: K, value: V): seq<(K, V)> {
    if data == [] then [(key, value)]
    else if data[0].0 == key then [(key, value)] + data[1..]
    else [data[0]] + AssignIn(data[1..], key, value)
  }

  /** What reading a bucket visits. */
  function Values<K, V>(data: seq<(K, V)>): seq<V> {
    if data == [] then [] else [data[0].1] + Values(data[1..])
  }

  /** A bucket is visited pair by pair, in order. */
  lemma {:induction false} ValuesAre<K, V>(data: seq<(K, V)>)
    ensures |Values(data)| == |data| && forall i :: 0 <= i < |data| ==> Values(data)[i] == data[i].1
    decreases data
  {
    if data != [] { ValuesAre(data[1..]); }
  }

  predicate NoRepeats<K(==), V>(data: seq<(K, V)>) {
    forall i, j :: 0 <= i < j < |data| ==> data[i].0 != data[j].0
  }

  lemma {:induction false} FindInIs<K, V>(data: seq<(K, V)>, key: K)
    ensures FindIn(data, key).None? <==> forall i :: 0 <= i < |data| ==> data[i].0 != key
    ensures FindIn(data, key).Some? ==> (key, FindIn(data, key).value) in data
    ensures NoRepeats(data) ==> forall i :: 0 <= i < |data| && data[i].0 == key ==> FindIn(data, key) == Some(data[i].1)
    decreases data
  {
    if data != [] {
      FindInIs(data[1..], key);
      assert data == [data[0]] + data[1..];
    }
  }

  lemma {:induction false} FindInAppended<K, V>(data: seq<(K, V)>, more: seq<(K, V)>, key: K)
    ensures FindIn(data + more, key) == if FindIn(data, key).Some? then FindIn(data, key) else FindIn(more, key)
    decreases data
  {
    if data == [] {
      assert data + more == more;
    } else {
      assert (data + more)[1..] == data[1..] + more;
      FindInAppended(data[1..], more, key);
    }
  }

  lemma {:induction false} InsertInMeets<K, V>(data: seq<(K, V)>, key: K, value: V, other: K)
    requires NoRepeats(data)
    ensures var d := InsertIn(data, key, value);
      && NoRepeats(d)
      && FindIn(d, other) == (if other == key && FindIn(data, key).None? then Some(value) else FindIn(data, other))
      && (forall p :: p in d ==> p in data || p.0 == key)
  {
    FindInIs(data, key);
    FindInAppended(data, [(key, value)], other);
  }

  lemma {:induction false} AssignInMeets<K, V>(data: seq<(K, V)>, key: K, value: V, other: K)
    requires NoRepeats(data)
    ensures var d := AssignIn(data, key, value);
      && NoRepeats(d)
      && FindIn(d, other) == (if other == key then Some(value) else FindIn(data, other))
      && (forall p :: p in d ==> p in data || p.0 == key)
    decreases data
  {
    if data != [] && data[0].0 != key {
      AssignInMeets(data[1..], key, value, other);
      assert data == [data[0]] + data[1..];
      var rest := AssignIn(data[1..], key, value);
      forall j | 0 <= j < |rest| ensures data[0].0 != rest[j].0 {
        assert rest[j] in rest;
      }
    }
  }

  lemma {:induction false} EraseInMeets<K, V>(data: seq<(K, V)>, key: K, other: K)
    requires NoRepeats(data)
    ensures var d := EraseIn(data, key);
      && NoRepeats(d)
      && FindIn(d, other) == (if other == key then None else FindIn(data, other))
      && (forall p :: p in d ==> p in data)
    decreases data
  {
    if data != [] {
      FindInIs(data[1..], key);
      assert data == [data[0]] + data[1..];
      if data[0].0 != key {
        EraseInMeets(data[1..], key, other);
        var rest := EraseIn(data[1..], key);
        forall j | 0 <= j < |rest| ensures data[0].0 != rest[j].0 {
          assert rest[j] in rest;
        }
      }
    }
  }

  /** A bucket grows at its end; a reader visits what it visited before, and then the new value. */
  lemma {:induction false} InsertAtEnd<K, V>(data: seq<(K, V)>, key: K, value: V)
    ensures InsertIn(data, key, value)
         == if exists i :: 0 <= i < |data| && data[i].0 == key then data else data + [(key, value)]
    ensures Values(InsertIn(data, key, value))
         == if exists i :: 0 <= i < |data| && data[i].0 == key then Values(data) else Values(data) + [value]
  {
    FindInIs(data, key);
    ValuesAre(data);
    ValuesAre(InsertIn(data, key, value));
  }

  /** Erasing takes out the first pair of the key, and the others keep their order. */
  lemma {:induction false} EraseTakesOne<K, V>(data: seq<(K, V)>, key: K)
    ensures (forall i :: 0 <= i < |data| ==> data[i].0 != key) ==> EraseIn(data, key) == data
    ensures forall i :: 0 <= i < |data| && data[i].0 == key && (forall j :: 0 <= j < i ==> data[j].0 != key) ==>
      EraseIn(data, key) == data[..i] + data[i + 1..]
  {
    if forall i :: 0 <= i < |data| ==> data[i].0 != key { EraseInAt(data, key, |data|); }
    forall i | 0 <= i < |data| && data[i].0 == key && (forall j :: 0 <= j < i ==> data[j].0 != key)
      ensures EraseIn(data, key) == data[..i] + data[i + 1..]
    {
      EraseInAt(data, key, i);
    }
  }

  // ---- the row of buckets and the map it stands for ----

  ghost predicate Placed<K(!new), V>(hash: K -> nat, buckets: seq<seq<(K, V)>>) {
    forall i :: 0 <= i < |buckets| ==>
      NoRepeats(buckets[i]) && forall p :: p in buckets[i] ==> hash(p.0) % |buckets| == i
  }

  function MapOf<K(==), V>(data: seq<(K, V)>): map<K, V> {
    if data == [] then map[] else MapOf(data[1..])[data[0].0 := data[0].1]
  }

  /** All pairs, bucket after bucket: what reading every index visits. */
  function Pairs<K, V>(buckets: seq<seq<(K, V)>>): seq<(K, V)> {
    if buckets == [] then [] else buckets[0] + Pairs(buckets[1..])
  }

  function Contents<K(==), V>(buckets: seq<seq<(K, V)>>): map<K, V> { MapOf(Pairs(buckets)) }

  function TotalSize<K, V>(buckets: seq<seq<(K, V)>>): nat {
    if buckets == [] then 0 else |buckets[0]| + TotalSize(buckets[1..])
  }

  lemma {:induction false} MapOfIs<K, V>(data: seq<(K, V)>, key: K)
    ensures key in MapOf(data) <==> FindIn(data, key).Some?
    ensures key in MapOf(data) ==> Some(MapOf(data)[key]) == FindIn(data, key)
    decreases data
  {
    if data != [] { MapOfIs(data[1..], key); }
  }

  lemma {:induction false} MapOfSize<K, V>(data: seq<(K, V)>)
    requires NoRepeats(data)
    ensures |MapOf(data)| == |data|
    decreases data
  {
    if data != [] {
      MapOfSize(data[1..]);
      FindInIs(data[1..], data[0].0);
      MapOfIs(data[1..], data[0].0);
      assert MapOf(data).Keys == MapOf(data[1..]).Keys + {data[0].0};
    }
  }

  lemma {:induction false} PairsSize<K, V>(buckets: seq<seq<(K, V)>>)
    ensures |Pairs(buckets)| == TotalSize(buckets)
    decreases buckets
  {
    if buckets != [] { PairsSize(buckets[1..]); }
  }

  /** The buckets from lo on, which hold the keys whose hash selects them. */
  ghost predicate PlacedFrom<K(!new), V>(hash: K -> nat, n: nat, lo: nat, buckets: seq<seq<(K, V)>>)
    requires n > 0
  {
    forall i :: 0 <= i < |buckets| ==>
      NoRepeats(buckets[i]) && forall p :: p in buckets[i] ==> hash(p.0) % n == lo + i
  }

  lemma {:induction false} PairsFind<K(!new), V>(hash: K -> nat, n: nat, lo: nat, buckets: seq<seq<(K, V)>>, key: K)
    requires n > 0 && PlacedFrom(hash, n, lo, buckets)
    ensures var i := hash(key) % n - lo;
      FindIn(Pairs(buckets), key) == if 0 <= i < |buckets| then FindIn(buckets[i], key) else None
    decreases buckets
  {
    if buckets != [] {
      assert PlacedFrom(hash, n, lo + 1, buckets[1..]);
      PairsFind(hash, n, lo + 1, buckets[1..], key);
      FindInAppended(buckets[0], Pairs(buckets[1..]), key);
      FindInIs(buckets[0], key);
    }
  }

  lemma {:induction false} PairsHave<K(!new), V>(hash: K -> nat, n: nat, lo: nat, buckets: seq<seq<(K, V)>>)
    requires n > 0 && PlacedFrom(hash, n, lo, buckets)
    ensures NoRepeats(Pairs(buckets))
    ensures forall p :: p in Pairs(buckets) ==> hash(p.0) % n >= lo
    decreases buckets
  {
    if buckets != [] {
      assert PlacedFrom(hash, n, lo + 1, buckets[1..]);
      PairsHave(hash, n, lo + 1, buckets[1..]);
      var first, rest := buckets[0], Pairs(buckets[1..]);
      forall i, j | 0 <= i < |first| && 0 <= j < |rest| ensures first[i].0 != rest[j].0 {
        assert first[i] in buckets[0] && rest[j] in rest;
      }
    }
  }

  /** Looking a key up in its own bucket is looking it up in the whole map. */
  lemma {:induction false} LookupMeets<K(!new), V>(hash: K -> nat, buckets: seq<seq<(K, V)>>, key: K)
    requires buckets != [] && Placed(hash, buckets)
    ensures var found := FindIn(buckets[hash(key) % |buckets|], key);
      && (key in Contents(buckets) <==> found.Some?)
      && (key in Contents(buckets) ==> found == Some(Contents(buckets)[key]))
  {
    assert PlacedFrom(hash, |buckets|, 0, buckets);
    PairsFind(hash, |buckets|, 0, buckets, key);
    MapOfIs(Pairs(buckets), key);
  }

  /** The size is the number of distinct keys, and the pairs of all buckets are the map's, each once. */
  lemma {:induction false} SizeMeets<K(!new), V>(hash: K -> nat, buckets: seq<seq<(K, V)>>)
    requires Placed(hash, buckets)
    ensures TotalSize(buckets) == |Contents(buckets)|
    ensures NoRepeats(Pairs(buckets))
    ensures forall key <- Contents(buckets) :: (key, Contents(buckets)[key]) in Pairs(buckets)
    ensures forall p :: p in Pairs(buckets) ==> p.0 in Contents(buckets) && Contents(buckets)[p.0] == p.1
  {
    var pairs := Pairs(buckets);
    if buckets != [] {
      assert PlacedFrom(hash, |buckets|, 0, buckets);
      PairsHave(hash, |buckets|, 0, buckets);
    }
    PairsSize(buckets);
    MapOfSize(pairs);
    forall key <- Contents(buckets) ensures (key, Contents(buckets)[key]) in pairs {
      MapOfIs(pairs, key);
      FindInIs(pairs, key);
    }
    forall p | p in pairs ensures p.0 in Contents(buckets) && Contents(buckets)[p.0] == p.1 {
      MapOfIs(pairs, p.0);
      FindInIs(pairs, p.0);
    }
  }

  /** What reading every index visits, one index after the other. */
  function AllValues<K, V>(buckets: seq<seq<(K, V)>>): seq<V> {
    if buckets == [] then [] else Values(buckets[0]) + AllValues(buckets[1..])
  }

  lemma {:induction false} AllValuesAre<K, V>(buckets: seq<seq<(K, V)>>)
    ensures |AllValues(buckets)| == |Pairs(buckets)|
    ensures forall i :: 0 <= i < |Pairs(buckets)| ==> AllValues(buckets)[i] == Pairs(buckets)[i].1
    decreases buckets
  {
    if buckets != [] {
      ValuesAre(buckets[0]);
      AllValuesAre(buckets[1..]);
    }
  }

  /**
   Reading all indices visits the value of every key exactly once: there are as many values as keys,
   each place belongs to one key and holds its value, and no key has two places or none.
   */
  lemma {:induction false} ReadingVisitsAll<K(!new), V>(hash: K -> nat, buckets: seq<seq<(K, V)>>) returns (keys: seq<K>)
    requires Placed(hash, buckets)
    ensures |AllValues(buckets)| == |keys| == |Contents(buckets)|
    ensures forall i, j :: 0 <= i < j < |keys| ==> keys[i] != keys[j]
    ensures forall i :: 0 <= i < |keys| ==> keys[i] in Contents(buckets) && AllValues(buckets)[i] == Contents(buckets)[keys[i]]
    ensures forall key <- Contents(buckets) :: key in keys
  {
    hide Contents, Placed;
    SizeMeets(hash, buckets);
    AllValuesAre(buckets);
    PairsSize(buckets);
    var pairs := Pairs(buckets);
    keys := seq(|pairs|, i requires 0 <= i < |pairs| => pairs[i].0);
    forall i | 0 <= i < |keys| ensures keys[i] in Contents(buckets) && AllValues(buckets)[i] == Contents(buckets)[keys[i]] {
      assert pairs[i] in pairs;
    }
    forall key <- Contents(buckets) ensures key in keys {
      var i :| 0 <= i < |pairs| && pairs[i] == (key, Contents(buckets)[key]);
      assert keys[i] == key;
    }
  }

  // ---- the operations on the row ----

  function Inserted<K(==), V>(hash: K -> nat, buckets: seq<seq<(K, V)>>, key: K, value: V): seq<seq<(K, V)>>
    requires buckets != []
  {
    var h := hash(key) % |buckets|;
    buckets[h := InsertIn(buckets[h], key, value)]
  }

  function Erased<K(==), V>(hash: K -> nat, buckets: seq<seq<(K, V)>>, key: K): seq<seq<(K, V)>>
    requires buckets != []
  {
    var h := hash(key) % |buckets|;
    buckets[h := EraseIn(buckets[h], key)]
  }

  /** Inserting adds the pair if the key is absent and changes nothing otherwise. */
  lemma {:induction false} InsertMeets<K(!new), V>(hash: K -> nat, buckets: seq<seq<(K, V)>>, key: K, value: V)
    requires buckets != [] && Placed(hash, buckets)
    ensures var b := Inserted(hash, buckets, key, value); var was := Contents(buckets);
      && |b| == |buckets| && Placed(hash, b)
      && Contents(b) == if key in was then was else was[key := value]
  {
    hide Contents, InsertIn;
    var h := hash(key) % |buckets|;
    var b := Inserted(hash, buckets, key, value);
    InsertInMeets(buckets[h], key, value, key);
    assert Placed(hash, b);
    LookupMeets(hash, buckets, key);
    var want := if key in Contents(buckets) then Contents(buckets) else Contents(buckets)[key := value];
    forall other: K
      ensures other in Contents(b) <==> other in want
      ensures other in want ==> Contents(b)[other] == want[other]
    {
      LookupMeets(hash, buckets, other);
      LookupMeets(hash, b, other);
      InsertInMeets(buckets[h], key, value, other);
    }
    assert Contents(b) == want;
  }

  lemma {:induction false} EraseMeets<K(!new), V>(hash: K -> nat, buckets: seq<seq<(K, V)>>, key: K)
    requires buckets != [] && Placed(hash, buckets)
    ensures var b := Erased(hash, buckets, key);
      && |b| == |buckets| && Placed(hash, b) && Contents(b) == Contents(buckets) - {key}
  {
    hide Contents, EraseIn;
    var h := hash(key) % |buckets|;
    var b := Erased(hash, buckets, key);
    EraseInMeets(buckets[h], key, key);
    assert Placed(hash, b);
    forall other: K
      ensures other in Contents(b) <==> other in Contents(buckets) && other != key
      ensures other in Contents(b) ==> Contents(b)[other] == Contents(buckets)[other]
    {
      LookupMeets(hash, buckets, other);
      LookupMeets(hash, b, other);
      EraseInMeets(buckets[h], key, other);
    }
    assert Contents(b) == Contents(buckets) - {key};
  }

  /**
   The map's insert-or-assign is an insert: afterwards the key has the given value exactly when it
   was absent or had that value already.
   */
  lemma {:induction false} AssignsIff<K(!new), V>(hash: K -> nat, buckets: seq<seq<(K, V)>>, key: K, value: V)
    requires buckets != [] && Placed(hash, buckets)
    ensures var was := Contents(buckets); var b := Inserted(hash, buckets, key, value);
      Contents(b) == was[key := value] <==> (key !in was || was[key] == value)
  {
    hide Contents, Inserted, Placed;
    InsertMeets(hash, buckets, key, value);
    var was := Contents(buckets);
    if key in was && was[key] == value { assert was == was[key := value]; }
    if key in was && was[key] != value { assert was[key := value][key] != was[key]; }
  }

  // ---- any run ----

  datatype Op<K, V> = Inserting(key: K, value: V) | Assigning(key: K, value: V) | Erasing(key: K)

  function Run<K(==), V>(hash: K -> nat, buckets: seq<seq<(K, V)>>, ops: seq<Op<K, V>>): (r: seq<seq<(K, V)>>)
    requires buckets != []
    ensures |r| == |buckets|
    decreases ops
  {
    if ops == [] then buckets
    else
      var b := match ops[0]
        case Inserting(key, value) => Inserted(hash, buckets, key, value)
        case Assigning(key, value) => Inserted(hash, buckets, key, value)
        case Erasing(key) => Erased(hash, buckets, key);
      Run(hash, b, ops[1..])
  }

  function DoMap<K(==), V>(m: map<K, V>, op: Op<K, V>): map<K, V> {
    match op
    case Inserting(key, value) => if key in m then m else m[key := value]
    case Assigning(key, value) => if key in m then m else m[key := value]
    case Erasing(key) => m - {key}
  }

  function RunMap<K(==), V>(m: map<K, V>, ops: seq<Op<K, V>>): map<K, V>
    decreases ops
  {
    if ops == [] then m else RunMap(DoMap(m, ops[0]), ops[1..])
  }

  /** Whatever the hash and the number of buckets, any run is the run on one finite map. */
  lemma {:induction false} RunMeets<K(!new), V>(hash: K -> nat, buckets: seq<seq<(K, V)>>, ops: seq<Op<K, V>>)
    requires buckets != [] && Placed(hash, buckets)
    ensures Placed(hash, Run(hash, buckets, ops))
    ensures Contents(Run(hash, buckets, ops)) == RunMap(Contents(buckets), ops)
    ensures TotalSize(Run(hash, buckets, ops)) == |RunMap(Contents(buckets), ops)|
    decreases ops
  {
    hide Contents, Inserted, Erased, Placed, TotalSize;
    if ops == [] {
      SizeMeets(hash, buckets);
    } else {
      match ops[0]
      case Inserting(key, value) =>
        InsertMeets(hash, buckets, key, value);
        RunMeets(hash, Inserted(hash, buckets, key, value), ops[1..]);
      case Assigning(key, value) =>
        InsertMeets(hash, buckets, key, value);
        RunMeets(hash, Inserted(hash, buckets, key, value), ops[1..]);
      case Erasing(key) =>
        EraseMeets(hash, buckets, key);
        RunMeets(hash, Erased(hash, buckets, key), ops[1..]);
    }
  }

  // ---- the objects ----

  class Bucket<K(==), V> {
    var data: seq<(K, V)>

    constructor ()
      ensures data == []
    {
      data := [];
    }

    method IndexOf(key: K) returns (at: nat)
      ensures at <= |data| && forall i :: 0 <= i < at ==> data[i].0 != key
      ensures at < |data| ==> data[at].0 == key && FindIn(data, key) == Some(data[at].1)
      ensures at == |data| <==> FindIn(data, key).None?
    {
      at := 0;
      assert data[0..] == data;
      while at < |data| && data[at].0 != key
        invariant at <= |data| && FindIn(data[at..], key) == FindIn(data, key)
        invariant forall i :: 0 <= i < at ==> data[i].0 != key
      {
        assert data[at..][1..] == data[at + 1..];
        at := at + 1;
      }
    }

    method Find(key: K) returns (found: Option<V>)
      ensures found == FindIn(data, key)
    {
      var at := IndexOf(key);
      found := if at == |data| then None else Some(data[at].1);
    }

    method Insert(key: K, value: V)
      modifies this
      ensures data == InsertIn(old(data), key, value)
    {
      var at := IndexOf(key);
      if at == |data| { data := data + [(key, value)]; }
    }

    method InsertOrAssign(key: K, value: V)
      modifies this
      ensures data == AssignIn(old(data), key, value)
    {
      var at := IndexOf(key);
      AssignInAt(data, key, value, at);
      if at == |data| { data := data + [(key, value)]; } else { data := data[at := (key, value)]; }
    }

    method Erase(key: K)
      modifies this
      ensures data == EraseIn(old(data), key)
    {
      var at := IndexOf(key);
      EraseInAt(data, key, at);
      if at != |data| { data := data[..at] + data[at + 1..]; }
    }
  }

  lemma {:induction false} AssignInAt<K, V>(data: seq<(K, V)>, key: K, value: V, at: nat)
    requires at <= |data| && (forall i :: 0 <= i < at ==> data[i].0 != key) && (at < |data| ==> data[at].0 == key)
    ensures AssignIn(data, key, value) == if at == |data| then data + [(key, value)] else data[at := (key, value)]
    decreases data
  {
    if data != [] && at > 0 {
      AssignInAt(data[1..], key, value, at - 1);
    }
  }

  lemma {:induction false} EraseInAt<K, V>(data: seq<(K, V)>, key: K, at: nat)
    requires at <= |data| && (forall i :: 0 <= i < at ==> data[i].0 != key) && (at < |data| ==> data[at].0 == key)
    ensures EraseIn(data, key) == if at == |data| then data else data[..at] + data[at + 1..]
    decreases data
  {
    if at > 0 {
      var rest := data[1..];
      EraseInAt(rest, key, at - 1);
      if at < |data| {
        assert data[..at] + data[at + 1..] == [data[0]] + (rest[..at - 1] + rest[at..]);
      }
    }
  }

  class Hashmap<K(==, !new), V> {
    const bucketSize: nat
    const hash: K -> nat
    const hashtable: seq<Bucket<K, V>>

    ghost predicate Valid()
      reads this, hashtable
    {
      && bucketSize > 0 && (|hashtable| == bucketSize || hashtable == [])
      && (forall i, j :: 0 <= i < j < |hashtable| ==> hashtable[i] != hashtable[j])
      && Placed(hash, Value())
    }

    ghost function Value(): seq<seq<(K, V)>>
      reads this, hashtable
    {
      seq(|hashtable|, i requires 0 <= i < |hashtable| reads hashtable => hashtable[i].data)
    }

    /** Asking for no buckets sets the size to the default but still makes none. */
    constructor (bucketNum: nat, hash: K -> nat)
      ensures Valid() && fresh(hashtable) && this.hash == hash
      ensures bucketSize == (if bucketNum == 0 then 1031 else bucketNum) && |hashtable| == bucketNum
      ensures forall i :: 0 <= i < |hashtable| ==> hashtable[i].data == []
    {
      this.hash := hash;
      bucketSize := if bucketNum == 0 then 1031 else bucketNum;
      var row: seq<Bucket<K, V>> := [];
      for i := 0 to bucketNum
        invariant |row| == i
        invariant forall j :: 0 <= j < i ==> fresh(row[j]) && row[j].data == []
        invariant forall j, k :: 0 <= j < k < i ==> row[j] != row[k]
      {
        var bucket := new Bucket<K, V>();
        row := row + [bucket];
      }
      hashtable := row;
    }

    /** None: there are no buckets, and the access throws. */
    method Find(key: K) returns (found: Option<Option<V>>)
      requires Valid()
      ensures found.None? <==> hashtable == []
      ensures found.Some? ==> found.value == if key in Contents(Value()) then Some(Contents(Value())[key]) else None
    {
      if |hashtable| == 0 { return None; }
      LookupMeets(hash, Value(), key);
      var at := hashtable[hash(key) % bucketSize].Find(key);
      found := Some(at);
    }

    method Insert(key: K, value: V) returns (ok: bool)
      requires Valid()
      modifies hashtable
      ensures Valid() && ok == (hashtable != [])
      ensures Value() == if ok then Inserted(hash, old(Value()), key, value) else old(Value())
    {
      if |hashtable| == 0 { return false; }
      hide Placed, Contents, InsertIn;
      InsertMeets(hash, Value(), key, value);
      hashtable[hash(key) % bucketSize].Insert(key, value);
      assert Value() == Inserted(hash, old(Value()), key, value);
      ok := true;
    }

    /** Forwards to the bucket's insert, not to its insert-or-assign. */
    method InsertOrAssign(key: K, value: V) returns (ok: bool)
      requires Valid()
      modifies hashtable
      ensures Valid() && ok == (hashtable != [])
      ensures Value() == if ok then Inserted(hash, old(Value()), key, value) else old(Value())
    {
      if |hashtable| == 0 { return false; }
      hide Placed, Contents, InsertIn;
      InsertMeets(hash, Value(), key, value);
      hashtable[hash(key) % bucketSize].Insert(key, value);
      assert Value() == Inserted(hash, old(Value()), key, value);
      ok := true;
    }

    method Erase(key: K) returns (ok: bool)
      requires Valid()
      modifies hashtable
      ensures Valid() && ok == (hashtable != [])
      ensures Value() == if ok then Erased(hash, old(Value()), key) else old(Value())
    {
      if |hashtable| == 0 { return false; }
      hide Placed, Contents, EraseIn;
      EraseMeets(hash, Value(), key);
      hashtable[hash(key) % bucketSize].Erase(key);
      assert Value() == Erased(hash, old(Value()), key);
      ok := true;
    }

    method Size() returns (size: nat)
      requires Valid()
      ensures size == |Contents(Value())|
    {
      size := 0;
      ghost var value := Value();
      SizeMeets(hash, value);
      assert value[0..] == value;
      for i := 0 to |hashtable|
        invariant size + TotalSize(value[i..]) == |Contents(value)|
      {
        assert value[i..][1..] == value[i + 1..];
        size := size + |hashtable[i].data|;
      }
    }

    /** What the function given to readAll is called with, in order; nothing past the last index. */
    method ReadAll(index: nat) returns (visited: Option<seq<V>>)
      requires Valid()
      ensures visited.None? <==> index < bucketSize && hashtable == []
      ensures visited.Some? && index >= |hashtable| ==> visited.value == []
      ensures visited.Some? && index < |hashtable| ==> visited.value == Values(Value()[index])
      ensures visited.Some? && index < |hashtable| ==>
        |visited.value| == |hashtable[index].data|
        && forall i :: 0 <= i < |visited.value| ==> visited.value[i] == hashtable[index].data[i].1
    {
      if index >= bucketSize { return Some([]); }
      if |hashtable| == 0 { return None; }
      var data := hashtable[index].data;
      var values: seq<V> := [];
      assert data[0..] == data;
      for i := 0 to |data|
        invariant values + Values(data[i..]) == Values(data)
      {
        assert data[i..][1..] == data[i + 1..];
        values := values + [data[i].1];
      }
      ValuesAre(data);
      visited := Some(values);
    }
  }
}
