/**
 The input buffer of a connection: a working area whose size follows the traffic, read into
 together with a second area on the stack, and a queue of the chunks delivered so far.
 The kernel's delivery is a parameter; a read may also fail or meet the end of the stream.
 */
module IOBuffer {
  import opened Codec

  const INITIAL_SIZE: nat := 1024
  const MAX_SIZE: nat := 65536
  const DECAY_LIMIT: nat := 5
  const USHORT_RANGE: nat := 65536

  datatype Outcome = Failed | Delivered(bytes: Bytes)

  /** What the kernel says to a write: an error, or how much it would take. */
  datatype Reply = Refused | Accepted(n: nat)

  function TakenBy(reply: Reply, len: nat): (k: nat)
    ensures k <= len
  {
    if reply.Refused? then 0 else if reply.n < len then reply.n else len
  }

  datatype BufferState = BufferState(data: Bytes, currSize: nat, decayNum: nat, queue: seq<Bytes>) {
    /** What holds between reads: the working area is exactly as long as its size says. */
    predicate Sane() {
      INITIAL_SIZE <= currSize <= MAX_SIZE && |data| == currSize && decayNum < USHORT_RANGE
    }
  }

  /** The working size after n delivered bytes: it grows by whole initial sizes, decays, or stays at the top. */
  function SizeAfter(currSize: nat, decayNum: nat, n: nat): nat
    requires currSize > 0
  {
    if currSize >= MAX_SIZE then currSize
    else if n < currSize then if (decayNum + 1) % USHORT_RANGE >= DECAY_LIMIT then INITIAL_SIZE else currSize
    else if (n / currSize + 1) * INITIAL_SIZE < MAX_SIZE then (n / currSize + 1) * INITIAL_SIZE
    else MAX_SIZE
  }

  function DecayAfter(currSize: nat, decayNum: nat, n: nat): nat {
    if currSize >= MAX_SIZE then decayNum
    else if n < currSize then (decayNum + 1) % USHORT_RANGE
    else 0
  }

  lemma {:induction false} SizeStaysInRange(currSize: nat, decayNum: nat, n: nat)
    requires INITIAL_SIZE <= currSize <= MAX_SIZE
    ensures INITIAL_SIZE <= SizeAfter(currSize, decayNum, n) <= MAX_SIZE
    ensures DecayAfter(currSize, decayNum, n) < USHORT_RANGE || currSize == MAX_SIZE
  {
    if n >= currSize { assert n / currSize >= 0; }
  }

  /**
   Growth: below the largest size, a read that fills the working area makes it as many initial sizes
   as there are working areas begun by the bytes, and one more when the last is full; at most the largest.
   */
  lemma {:induction false} FullReadGrows(currSize: nat, decayNum: nat, n: nat) returns (k: nat)
    requires INITIAL_SIZE <= currSize < MAX_SIZE && n >= currSize
    ensures k >= 2 && (k - 1) * currSize <= n < k * currSize
    ensures SizeAfter(currSize, decayNum, n) == if k * 1024 >= 65536 then 65536 else k * 1024
    ensures DecayAfter(currSize, decayNum, n) == 0
  {
    k := n / currSize + 1;
    assert n == (n / currSize) * currSize + n % currSize;
    assert k * currSize == (n / currSize) * currSize + currSize;
    assert n / currSize >= 1;
  }

  /** From the initial size, the next read has room for what this one delivered and up to 1024 bytes more, or the most. */
  lemma {:induction false} GrowsPastTheRead(decayNum: nat, n: nat)
    requires n >= 1024
    ensures var size := SizeAfter(1024, decayNum, n); n < size <= n + 1024 || size == 65536
  {
    var k := FullReadGrows(1024, decayNum, n);
  }

  /** The new size counts initial sizes, not working areas, so a read that fills a large area can make it smaller. */
  lemma {:induction false} FullReadGrowsIff(currSize: nat, decayNum: nat, n: nat)
    requires INITIAL_SIZE <= currSize < MAX_SIZE && n >= currSize
    ensures SizeAfter(currSize, decayNum, n) > currSize <==> (n / currSize + 1) * 1024 > currSize
    ensures SizeAfter(5120, decayNum, 5120) == 2048
  {
    var k := FullReadGrows(currSize, decayNum, n);
    QuotientIs(n, currSize, k);
  }

  lemma {:induction false} QuotientIs(n: nat, d: nat, k: nat)
    requires d > 0 && k > 0 && (k - 1) * d <= n < k * d
    ensures n / d + 1 == k
  {
    var q := n / d;
    assert q * d <= n < q * d + d;
    if q >= k { Larger(k, q, d); }
    if q < k - 1 { Larger(q + 1, k - 1, d); }
  }

  lemma Larger(a: nat, b: nat, d: nat)
    requires a <= b
    ensures a * d <= b * d
  {
  }

  /** Sizes are whole initial sizes, and the largest one is reached only from the initial one, by 63 of them or more. */
  lemma {:induction false} BecomesLargestIff(currSize: nat, decayNum: nat, n: nat)
    requires INITIAL_SIZE <= currSize < MAX_SIZE && currSize % 1024 == 0 && n <= MAX_SIZE
    ensures SizeAfter(currSize, decayNum, n) % 1024 == 0
    ensures SizeAfter(currSize, decayNum, n) == 65536 <==> currSize == 1024 && n >= 64512
  {
    if n >= currSize {
      var k := FullReadGrows(currSize, decayNum, n);
      if currSize >= 2048 && k >= 64 {
        Larger(63, k - 1, currSize);
      }
    }
  }

  lemma DivBelowOne(n: nat, d: nat)
    requires d > 0
    ensures n / d < 1 <==> n < d
  {
  }

  class Buffer {
    var data: Bytes
    var currSize: nat
    var decayNum: nat
    var dataQueue: seq<Bytes>

    ghost function State(): BufferState
      reads this
    {
      BufferState(data, currSize, decayNum, dataQueue)
    }

    constructor ()
      ensures State().Sane() && dataQueue == [] && currSize == INITIAL_SIZE && decayNum == 0
    {
      data := seq(INITIAL_SIZE, _ => 0);
      currSize, decayNum, dataQueue := INITIAL_SIZE, 0, [];
    }

    method Put(bytes: Bytes)
      modifies this`dataQueue
      ensures dataQueue == old(dataQueue) + [bytes]
    {
      dataQueue := dataQueue + [bytes];
    }

    method Get() returns (chunk: Option<Bytes>)
      modifies this`dataQueue
      ensures old(dataQueue) == [] ==> chunk == None && dataQueue == []
      ensures old(dataQueue) != [] ==> chunk == Some(old(dataQueue)[0]) && dataQueue == old(dataQueue)[1..]
    {
      if dataQueue != [] {
        chunk := Some(dataQueue[0]);
        dataQueue := dataQueue[1..];
      } else {
        chunk := None;
      }
    }

    /**
     One read.  Whatever the split between the two areas, the chunk queued is exactly the bytes
     the kernel delivered.  Only the end of the stream can leave the area and its size apart.
     */
    method Read(outcome: Outcome) returns (n: int)
      requires State().Sane()
      requires outcome.Delivered? ==> |outcome.bytes| <= MAX_SIZE
      modifies this
      ensures outcome.Failed? ==> n < 0 && State() == old(State())
      ensures outcome.Delivered? ==> n == |outcome.bytes|
      ensures outcome.Delivered? ==> currSize == SizeAfter(old(currSize), old(decayNum), n)
      ensures outcome.Delivered? ==> decayNum == DecayAfter(old(currSize), old(decayNum), n)
      ensures outcome.Delivered? && n > 0 ==> State().Sane() && dataQueue == old(dataQueue) + [outcome.bytes]
      ensures outcome.Delivered? && n == 0 ==> dataQueue == old(dataQueue) && |data| == old(currSize)
    {
      if outcome.Failed? {
        return -1;
      }
      var bytes := outcome.bytes;
      n := |bytes|;
      if currSize < MAX_SIZE {
        // readv fills the working area first and the extra area with what is left
        var first := if n < currSize then n else currSize;
        data := bytes[..first] + data[first..];
        var extraBuff := bytes[first..];
        var multiple := |bytes| / currSize;
        DivBelowOne(|bytes|, currSize);
        if multiple < 1 {
          decayNum := (decayNum + 1) % USHORT_RANGE;
          if decayNum >= DECAY_LIMIT {
            currSize := INITIAL_SIZE;
          }
        } else {
          data := data + extraBuff[..|bytes| - currSize];
          decayNum := 0;
          currSize := if (multiple + 1) * INITIAL_SIZE < MAX_SIZE then (multiple + 1) * INITIAL_SIZE else MAX_SIZE;
        }
      } else {
        data := bytes + data[|bytes|..];
      }
      assert data[..n] == bytes;
      assert currSize == SizeAfter(old(currSize), old(decayNum), n);
      assert decayNum == DecayAfter(old(currSize), old(decayNum), n);
      SizeStaysInRange(old(currSize), old(decayNum), |bytes|);
      if n > 0 {
        Put(data[..n]);
        data := seq(currSize, _ => 0);
      }
    }

    /** What the kernel does not take is queued behind everything else; on an error nothing is. */
    method Write(buf: Bytes, reply: Reply) returns (n: int)
      modifies this`dataQueue
      ensures reply.Refused? ==> n < 0 && dataQueue == old(dataQueue)
      ensures reply.Accepted? ==> n == TakenBy(reply, |buf|)
      ensures reply.Accepted? ==>
        dataQueue == old(dataQueue) + if n < |buf| then [buf[n..]] else []
    {
      if reply.Refused? { return -1; }
      n := TakenBy(reply, |buf|);
      var remaining := |buf| - n;
      if remaining > 0 { Put(buf[n..]); }
    }
  }

  // ---- runs of reads ----

  function SizeAfterAll(currSize: nat, decayNum: nat, counts: seq<nat>): nat
    requires INITIAL_SIZE <= currSize <= MAX_SIZE
    decreases counts
  {
    if counts == [] then currSize
    else
      SizeStaysInRange(currSize, decayNum, counts[0]);
      SizeAfterAll(SizeAfter(currSize, decayNum, counts[0]), DecayAfter(currSize, decayNum, counts[0]), counts[1..])
  }

  /** A buffer that has grown to the largest size never shrinks again, however little arrives. */
  lemma {:induction false} LargestSizeIsForEver(decayNum: nat, counts: seq<nat>)
    ensures SizeAfterAll(MAX_SIZE, decayNum, counts) == MAX_SIZE && DecayAfterAll(MAX_SIZE, decayNum, counts) == decayNum
    decreases counts
  {
    if counts != [] { LargestSizeIsForEver(decayNum, counts[1..]); }
  }

  /** A run from a new buffer that reaches the largest size: one short read, then one that fills nearly all there is. */
  lemma {:induction false} ReachesLargest() returns (counts: seq<nat>)
    ensures counts == [1000, 64512] && SizeAfterAll(1024, 0, counts) == 65536
  {
    counts := [1000, 64512];
    assert counts[1..] == [64512] && counts[1..][1..] == [];
    assert SizeAfter(1024, 0, 1000) == 1024 && SizeAfter(1024, 1, 64512) == 65536;
    assert SizeAfterAll(1024, 0, counts) == SizeAfterAll(1024, 1, [64512]) == SizeAfterAll(65536, 0, []);
  }

  /** Each read is shorter than the area it is read into. */
  predicate AllShort(currSize: nat, decayNum: nat, counts: seq<nat>)
    requires INITIAL_SIZE <= currSize <= MAX_SIZE
    decreases counts
  {
    counts == []
    || (counts[0] < currSize
        && (SizeStaysInRange(currSize, decayNum, counts[0]);
            AllShort(SizeAfter(currSize, decayNum, counts[0]), DecayAfter(currSize, decayNum, counts[0]), counts[1..])))
  }

  function DecayAfterAll(currSize: nat, decayNum: nat, counts: seq<nat>): nat
    requires INITIAL_SIZE <= currSize <= MAX_SIZE
    decreases counts
  {
    if counts == [] then decayNum
    else
      SizeStaysInRange(currSize, decayNum, counts[0]);
      DecayAfterAll(SizeAfter(currSize, decayNum, counts[0]), DecayAfter(currSize, decayNum, counts[0]), counts[1..])
  }

  /** A count of five short reads or more, before it wraps, goes with the initial size. */
  predicate DecayFits(currSize: nat, decayNum: nat) {
    decayNum < USHORT_RANGE && (decayNum >= DECAY_LIMIT ==> currSize == INITIAL_SIZE)
  }

  /** It holds of a new buffer, and every run of reads keeps it, through any wrap of the counter. */
  lemma {:induction false} RunKeepsDecayFit(currSize: nat, decayNum: nat, counts: seq<nat>)
    requires INITIAL_SIZE <= currSize <= MAX_SIZE && DecayFits(currSize, decayNum)
    ensures DecayFits(SizeAfterAll(currSize, decayNum, counts), DecayAfterAll(currSize, decayNum, counts))
    ensures DecayFits(INITIAL_SIZE, 0)
    decreases counts
  {
    if counts != [] {
      SizeStaysInRange(currSize, decayNum, counts[0]);
      RunKeepsDecayFit(SizeAfter(currSize, decayNum, counts[0]), DecayAfter(currSize, decayNum, counts[0]), counts[1..]);
    }
  }

  /** Below the largest size, five short reads in a row bring the initial size back, whatever the count was before. */
  lemma {:induction false} ShortReadsDecay(currSize: nat, decayNum: nat, counts: seq<nat>)
    requires INITIAL_SIZE <= currSize < MAX_SIZE && DecayFits(currSize, decayNum)
    requires |counts| == 5 && AllShort(currSize, decayNum, counts)
    ensures SizeAfterAll(currSize, decayNum, counts) == 1024
  {
    if currSize == INITIAL_SIZE {
      SmallStaysSmall(decayNum, counts);
    } else {
      ShortReads(currSize, decayNum, counts);
    }
  }

  /** Fewer do not: after a read that filled the area, its size stays through four short reads. */
  lemma {:induction false} FourKeepTheSize(currSize: nat, decayNum: nat, n: nat, counts: seq<nat>)
    requires INITIAL_SIZE <= currSize < MAX_SIZE && n >= currSize && SizeAfter(currSize, decayNum, n) < MAX_SIZE
    requires INITIAL_SIZE <= SizeAfter(currSize, decayNum, n)
    requires |counts| <= 4 && AllShort(SizeAfter(currSize, decayNum, n), DecayAfter(currSize, decayNum, n), counts)
    ensures SizeAfterAll(SizeAfter(currSize, decayNum, n), DecayAfter(currSize, decayNum, n), counts)
         == SizeAfter(currSize, decayNum, n)
  {
    ShortReads(SizeAfter(currSize, decayNum, n), 0, counts);
  }

  /** Short reads are counted in sixteen bits. */
  lemma {:induction false} CounterWraps(currSize: nat, decayNum: nat, n: nat)
    requires INITIAL_SIZE <= currSize < MAX_SIZE && n < currSize && decayNum <= 65535
    ensures DecayAfter(currSize, decayNum, n) == if decayNum == 65535 then 0 else decayNum + 1
  {
  }

  lemma {:induction false} SmallStaysSmall(decayNum: nat, counts: seq<nat>)
    requires AllShort(INITIAL_SIZE, decayNum, counts)
    ensures SizeAfterAll(INITIAL_SIZE, decayNum, counts) == INITIAL_SIZE
    decreases counts
  {
    if counts != [] { SmallStaysSmall((decayNum + 1) % USHORT_RANGE, counts[1..]); }
  }

  lemma {:induction false} ShortReads(currSize: nat, decayNum: nat, counts: seq<nat>)
    requires INITIAL_SIZE <= currSize < MAX_SIZE && decayNum + |counts| < USHORT_RANGE
    requires AllShort(currSize, decayNum, counts)
    ensures SizeAfterAll(currSize, decayNum, counts)
         == if counts != [] && decayNum + |counts| >= DECAY_LIMIT then INITIAL_SIZE else currSize
    decreases counts
  {
    if counts != [] {
      ShortReads(SizeAfter(currSize, decayNum, counts[0]), decayNum + 1, counts[1..]);
    }
  }
}
