/** The locked queue shared by threads.  Each method is one atomic step. */
module SafeQueue {

  class SafeQueue<T(0)> {
    var data: seq<T>

    constructor ()
      ensures data == []
    {
      data := [];
    }

    method Push(val: T)
      modifies this
      ensures data == old(data) + [val]
    {
      data := data + [val];
    }

    method Pop() returns (ok: bool, val: T)
      modifies this
      ensures ok == (old(data) != [])
      ensures if ok then val == old(data)[0] && data == old(data)[1..] else data == old(data)
    {
      if data == [] {
        return false, *;
      }
      ok, val, data := true, data[0], data[1..];
    }

    /** Up to n values, in order. */
    method PopN(n: nat) returns (q: seq<T>)
      modifies this
      ensures |q| == (if n < |old(data)| then n else |old(data)|) && q == old(data)[..|q|]
      ensures data == old(data)[|q|..]
    {
      q := [];
      var min := if n < |data| then n else |data|;
      for i := 0 to min
        invariant q == old(data)[..i] && data == old(data)[i..]
      {
        q := q + [data[0]];
        data := data[1..];
      }
    }

    /** The timed wait: when it is over, a value is taken if there is one. */
    method WaitAndPop() returns (ok: bool, val: T)
      modifies this
      ensures ok == (old(data) != [])
      ensures if ok then val == old(data)[0] && data == old(data)[1..] else data == old(data)
    {
      ok, val := Pop();
    }

    method Size() returns (n: nat)
      ensures n == |data|
    {
      n := |data|;
    }

    method Clear()
      modifies this
      ensures data == []
    {
      var sz := |data|;
      for i := 0 to sz
        invariant |data| == sz - i
      {
        data := data[1..];
      }
    }
  }
}
