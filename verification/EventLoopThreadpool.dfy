/**
 How the pool of event loops chooses a loop for a new connection: in turn, or by the fewest events.
 A loop that is not running is passed over.
 */
module EventLoopThreadpool {
  /** The first running loop in [lo, hi), or -1. */
  function FirstIn(looping: seq<bool>, lo: nat, hi: nat): int
    requires lo <= hi <= |looping|
    decreases hi - lo
  {
    if lo == hi then -1 else if looping[lo] then lo else FirstIn(looping, lo + 1, hi)
  }

  /** The first running loop after next, wrapping round to next itself. */
  function Chosen(looping: seq<bool>, next: nat): int
    requires next < |looping|
  {
    var r := FirstIn(looping, next + 1, |looping|);
    if r >= 0 then r else FirstIn(looping, 0, next + 1)
  }

  predicate Quiet(looping: seq<bool>, lo: nat, hi: nat)
    requires hi <= |looping|
  {
    forall k :: lo <= k < hi ==> !looping[k]
  }

  lemma {:induction false} FirstInIs(looping: seq<bool>, lo: nat, hi: nat)
    requires lo <= hi <= |looping|
    ensures var r := FirstIn(looping, lo, hi);
      if r >= 0 then lo <= r < hi && looping[r] && Quiet(looping, lo, r) else r == -1 && Quiet(looping, lo, hi)
    decreases hi - lo
  {
    if lo < hi && !looping[lo] { FirstInIs(looping, lo + 1, hi); }
  }

  lemma {:induction false} FirstInUnique(looping: seq<bool>, lo: nat, hi: nat, r: nat)
    requires lo <= r < hi <= |looping| && looping[r] && Quiet(looping, lo, r)
    ensures FirstIn(looping, lo, hi) == r
  {
    FirstInIs(looping, lo, hi);
  }

  /** No loop is chosen exactly when none runs; a chosen one runs, and every loop passed over does not. */
  lemma {:induction false} ChosenIs(looping: seq<bool>, next: nat)
    requires next < |looping|
    ensures Chosen(looping, next) == -1 <==> Quiet(looping, 0, |looping|)
    ensures var r := Chosen(looping, next);
      r != -1 ==>
        && 0 <= r < |looping| && looping[r]
        && (r > next ==> Quiet(looping, next + 1, r))
        && (r <= next ==> Quiet(looping, next + 1, |looping|) && Quiet(looping, 0, r))
  {
    FirstInIs(looping, next + 1, |looping|);
    FirstInIs(looping, 0, next + 1);
  }

  // ---- fairness ----

  /** The list with loop n added at its end if it runs. */
  function OneMore(looping: seq<bool>, n: nat, a: seq<nat>): seq<nat>
    requires n < |looping|
  {
    if looping[n] then a + [n] else a
  }

  /** The running loops below n, in order. */
  function Active(looping: seq<bool>, n: nat): seq<nat>
    requires n <= |looping|
  {
    if n == 0 then [] else OneMore(looping, n - 1, Active(looping, n - 1))
  }

  /** A list of exactly the running loops below n, in order. */
  predicate Lists(looping: seq<bool>, n: nat, a: seq<nat>)
    requires n <= |looping|
  {
    && (forall i, j :: 0 <= i < j < |a| ==> a[i] < a[j])
    && (forall i :: 0 <= i < |a| ==> a[i] < n && looping[a[i]])
    && (forall k :: 0 <= k < n && looping[k] ==> k in a)
  }

  lemma {:induction false} ListsOneMore(looping: seq<bool>, n: nat, a: seq<nat>)
    requires n < |looping| && Lists(looping, n, a)
    ensures Lists(looping, n + 1, OneMore(looping, n, a))
  {
    var b := OneMore(looping, n, a);
    forall i | 0 <= i < |b| ensures b[i] < n + 1 && looping[b[i]] {
      if i < |a| { assert b[i] == a[i]; } else { assert b[i] == n; }
    }
    forall k | 0 <= k < n + 1 && looping[k] ensures k in b {
      if k < n {
        var i :| 0 <= i < |a| && a[i] == k;
        assert b[i] == k;
      } else {
        assert b[|a|] == k;
      }
    }
  }

  lemma {:induction false} ActiveIs(looping: seq<bool>, n: nat)
    requires n <= |looping|
    ensures Lists(looping, n, Active(looping, n))
  {
    if n > 0 {
      hide Lists, OneMore;
      ActiveIs(looping, n - 1);
      ListsOneMore(looping, n - 1, Active(looping, n - 1));
    }
  }

  lemma {:induction false} ActiveExtends(looping: seq<bool>, n: nat, m: nat)
    requires n <= m <= |looping|
    ensures Active(looping, n) <= Active(looping, m)
    ensures Quiet(looping, n, m) ==> Active(looping, m) == Active(looping, n)
    decreases m
  {
    if n < m { ActiveExtends(looping, n, m - 1); }
  }

  /** The choice is the running loop whose rank is the number of running loops up to next, cyclically. */
  lemma {:induction false} ChosenRank(looping: seq<bool>, next: nat)
    requires next < |looping| && !Quiet(looping, 0, |looping|)
    ensures var a := Active(looping, |looping|); var c := |Active(looping, next + 1)|;
      && 0 < |a| && c <= |a|
      && Chosen(looping, next) == a[if c == |a| then 0 else c]
    ensures var r := Chosen(looping, next); var c := |Active(looping, next + 1)|;
      0 <= r < |looping| && |Active(looping, r + 1)| == (if c == |Active(looping, |looping|)| then 0 else c) + 1
  {
    var n := |looping|;
    ChosenIs(looping, next);
    var r := Chosen(looping, next);
    ActiveExtends(looping, next + 1, n);
    ActiveExtends(looping, r + 1, n);
    if r > next {
      ActiveExtends(looping, next + 1, r);
    } else {
      ActiveExtends(looping, 0, r);
    }
    assert Active(looping, r + 1) == Active(looping, r) + [r];
    assert Active(looping, n)[|Active(looping, r)|] == r by {
      assert Active(looping, r + 1)[|Active(looping, r)|] == r;
    }
  }

  /** The answer of the n-th call while the same loops run; before the first call, where the turn stands. */
  function Answer(looping: seq<bool>, next: nat, n: nat): nat
    requires next < |looping|
    decreases n
  {
    if n == 0 then next
    else
      var r := Chosen(looping, next);
      if 0 <= r < |looping| then Answer(looping, r, n - 1) else next
  }

  lemma {:induction false} AnswersFollow(looping: seq<bool>, next: nat, n: nat, m: nat)
    requires next < |looping| && !Quiet(looping, 0, |looping|)
    ensures Answer(looping, next, n) < |looping|
    ensures Answer(looping, next, n + m) == Answer(looping, Answer(looping, next, n), m)
    decreases n
  {
    hide Quiet, Chosen;
    ChosenIs(looping, next);
    if n > 0 { AnswersFollow(looping, Chosen(looping, next), n - 1, m); }
  }

  function Around(i: nat, n: nat): nat { if i >= n then i - n else i }

  /** The n-th answer is the running loop n places on, cyclically. */
  lemma {:induction false} AnswerRank(looping: seq<bool>, next: nat, n: nat)
    requires next < |looping| && !Quiet(looping, 0, |looping|)
    requires 1 <= n <= |Active(looping, |looping|)|
    ensures var a := Active(looping, |looping|); var c := |Active(looping, next + 1)|;
      && c <= |a| && Answer(looping, next, n) == a[Around(c + n - 1, |a|)]
    decreases n
  {
    hide Active, Chosen, Quiet;
    ChosenRank(looping, next);
    if n > 1 { AnswerRank(looping, Chosen(looping, next), n - 1); }
  }

  predicate ExactlyOnce(looping: seq<bool>, next: nat, start: nat, n: nat)
    requires next < |looping|
  {
    && (forall i :: start < i <= start + n ==>
      Answer(looping, next, i) < |looping| && looping[Answer(looping, next, i)])
    && (forall k :: 0 <= k < |looping| && looping[k] ==>
      exists i :: start < i <= start + n && Answer(looping, next, i) == k)
    && (forall i, j :: start < i < j <= start + n ==> Answer(looping, next, i) != Answer(looping, next, j))
  }

  lemma {:induction false} FirstRound(looping: seq<bool>, next: nat)
    requires next < |looping| && !Quiet(looping, 0, |looping|)
    ensures ExactlyOnce(looping, next, 0, |Active(looping, |looping|)|)
  {
    hide Active, Answer, Quiet;
    var a, c := Active(looping, |looping|), |Active(looping, next + 1)|;
    ActiveIs(looping, |looping|);
    forall i | 1 <= i <= |a| ensures c <= |a| && Answer(looping, next, i) == a[Around(c + i - 1, |a|)] {
      AnswerRank(looping, next, i);
    }
    forall k | 0 <= k < |looping| && looping[k]
      ensures exists i :: 1 <= i <= |a| && Answer(looping, next, i) == k
    {
      AnswersReach(looping, next, k);
    }
  }

  lemma {:induction false} AnswersReach(looping: seq<bool>, next: nat, k: nat)
    requires next < |looping| && k < |looping| && looping[k]
    ensures exists i :: 1 <= i <= |Active(looping, |looping|)| && Answer(looping, next, i) == k
  {
    hide Active, Answer;
    var a, c := Active(looping, |looping|), |Active(looping, next + 1)|;
    ActiveIs(looping, |looping|);
    assert k in a;
    var m :| 0 <= m < |a| && a[m] == k;
    AnswerRank(looping, next, 1);
    var i := if m >= c then m - c + 1 else m + |a| - c + 1;
    AnswerRank(looping, next, i);
    assert Answer(looping, next, i) == k;
  }

  /**
   Fairness: while the same loops run, any run of calls as long as there are running loops, wherever
   it starts, answers each of them exactly once and no other.
   */
  lemma {:induction false} Fair(looping: seq<bool>, next: nat, start: nat)
    requires next < |looping| && !Quiet(looping, 0, |looping|)
    ensures ExactlyOnce(looping, next, start, |Active(looping, |looping|)|)
  {
    hide Active, Answer, Quiet;
    var n := |Active(looping, |looping|)|;
    AnswersFollow(looping, next, start, 0);
    var at := Answer(looping, next, start);
    FirstRound(looping, at);
    forall i | start < i <= start + n ensures Answer(looping, next, i) == Answer(looping, at, i - start) {
      AnswersFollow(looping, next, start, i - start);
    }
    forall k | 0 <= k < |looping| && looping[k]
      ensures exists i :: start < i <= start + n && Answer(looping, next, i) == k
    {
      var j :| 0 < j <= n && Answer(looping, at, j) == k;
      assert Answer(looping, next, start + j) == k;
    }
  }

  // ---- the pool ----

  class Pool {
    const threadNum: nat
    var nextIndex: nat
    /** Of every thread made, whether its loop runs now and how many events it watches. */
    var looping: seq<bool>
    var eventSize: seq<nat>

    ghost predicate Valid()
      reads this
    {
      |looping| == |eventSize| >= threadNum && (threadNum > 0 ==> nextIndex < threadNum)
    }

    /** The loops that may be chosen. */
    ghost function Used(): seq<bool>
      requires Valid()
      reads this
    {
      looping[..threadNum]
    }

    /** As many threads as asked for are made; no more than the hardware runs at once are used. */
    constructor (num: nat, hardware: nat)
      ensures Valid() && nextIndex == 0 && |looping| == num
      ensures threadNum == (if num > hardware then hardware else num)
      ensures forall i :: 0 <= i < num ==> !looping[i] && eventSize[i] == 0
    {
      threadNum := if num > hardware then hardware else num;
      nextIndex := 0;
      looping := seq(num, _ => false);
      eventSize := seq(num, _ => 0);
    }

    /** A thread starts or leaves its loop, or its events change. */
    method Turn(i: nat, runs: bool, events: nat)
      requires Valid() && i < |looping|
      modifies this`looping, this`eventSize
      ensures Valid() && looping == old(looping)[i := runs] && eventSize == old(eventSize)[i := events]
    {
      looping, eventSize := looping[i := runs], eventSize[i := events];
    }

    predicate IsInactive(i: nat)
      requires i < |looping|
      reads this
    {
      !looping[i]
    }

    method RoundRobinIndex() returns (res: int)
      requires Valid()
      modifies this`nextIndex
      ensures Valid()
      ensures threadNum == 0 ==> res == -1 && nextIndex == old(nextIndex) + 1
      ensures threadNum > 0 && res == -1 ==> nextIndex == Start(old(nextIndex), threadNum)
      ensures threadNum > 0 ==> res == Chosen(Used(), old(nextIndex))
      ensures res >= 0 ==> nextIndex == res
    {
      hide PassedOver, Chosen, Modulo;
      res := -1;
      ghost var used := Used();
      ghost var was := nextIndex;
      ghost var start := Start(was, threadNum);
      StartPassed(used, start);
      nextIndex := nextIndex + 1;
      var tmp := nextIndex;
      if nextIndex == threadNum { nextIndex := 0; }
      var i := nextIndex;
      if threadNum > 0 { ModuloIs(i, threadNum); }
      while i < tmp + threadNum
        invariant threadNum > 0 ==> i <= tmp + threadNum && nextIndex < threadNum
        invariant threadNum == 0 ==> nextIndex == was + 1
        invariant threadNum > 0 ==> nextIndex == Modulo(i, threadNum)
        invariant threadNum > 0 ==> start <= i && PassedOver(used, start, i)
      {
        ModuloIs(i, threadNum);
        if !IsInactive(Modulo(i, threadNum)) {
          res := Modulo(i, threadNum);
          FoundIsChosen(used, was, i);
          break;
        } else {
          ModuloStep(i, threadNum);
          PassOneMore(used, start, i);
          nextIndex := Modulo(nextIndex + 1, threadNum);
        }
        i := i + 1;
      }
      if res == -1 && threadNum > 0 {
        NotFoundIsChosen(used, was);
        ModuloIs(i, threadNum);
      }
    }

    /** The running loop with the fewest events, the first of them; a count of MAX_SIZE is never fewer. */
    method FewerEventsIndex() returns (res: int)
      requires Valid()
      ensures res == -1 <==> forall k :: 0 <= k < threadNum && looping[k] ==> eventSize[k] >= 0xFFFF_FFFF_FFFF_FFFF
      ensures res != -1 ==> 0 <= res < threadNum && looping[res] && eventSize[res] < 0xFFFF_FFFF_FFFF_FFFF
      ensures res != -1 ==> forall k :: 0 <= k < threadNum && looping[k] ==> eventSize[res] <= eventSize[k]
      ensures res != -1 ==> forall k :: 0 <= k < res && looping[k] ==> eventSize[res] < eventSize[k]
    {
      res := -1;
      var fewer := MAX_SIZE;
      for i := 0 to threadNum
        invariant res == -1 ==> fewer == MAX_SIZE
        invariant res != -1 ==> 0 <= res < i && looping[res] && fewer == eventSize[res] < MAX_SIZE
        invariant forall k :: 0 <= k < i && looping[k] ==> fewer <= eventSize[k]
        invariant forall k :: 0 <= k < res && looping[k] ==> fewer < eventSize[k]
      {
        if !IsInactive(i) && fewer > eventSize[i] {
          fewer := eventSize[i];
          res := i;
        }
      }
    }
  }

  const MAX_SIZE: nat := 0xFFFF_FFFF_FFFF_FFFF

  // ---- the scan, which counts on past the last loop and takes the count modulo their number ----

  function Modulo(i: nat, n: nat): (r: nat)
    requires n > 0
    ensures r < n
  {
    i % n
  }

  function Start(was: nat, n: nat): nat { if was + 1 < n then was + 1 else 0 }

  predicate PassedOver(looping: seq<bool>, start: nat, i: nat) {
    var n := |looping|;
    && Quiet(looping, start, if i < n then i else n)
    && (n < i <= 2 * n ==> Quiet(looping, 0, i - n))
  }

  lemma {:induction false} MultipleIs(d: int, n: nat)
    ensures d >= 1 ==> d * n >= n
    ensures d <= -1 ==> -(d * n) >= n
  {
    if d >= 1 {
      assert d * n == n + (d - 1) * n;
    } else if d <= -1 {
      assert -(d * n) == n + (-d - 1) * n;
    }
  }

  lemma {:induction false} RemainderIs(x: nat, q: nat, r: nat, n: nat)
    requires r < n && x == q * n + r
    ensures x % n == r
  {
    var d := x / n - q;
    assert d * n == r - x % n by {
      assert x == (x / n) * n + x % n;
      assert d * n == (x / n) * n - q * n;
    }
    MultipleIs(d, n);
  }

  lemma {:induction false} ModuloIs(i: nat, n: nat)
    requires 0 < n && i <= 2 * n
    ensures Modulo(i, n) == if i < n then i else if i < 2 * n then i - n else 0
  {
    if i < n {
      RemainderIs(i, 0, i, n);
    } else if i < 2 * n {
      RemainderIs(i, 1, i - n, n);
    } else {
      RemainderIs(i, 2, 0, n);
    }
  }

  lemma {:induction false} ModuloStep(i: nat, n: nat)
    requires 0 < n && i < 2 * n
    ensures Modulo(Modulo(i, n) + 1, n) == Modulo(i + 1, n)
  {
    ModuloIs(i, n);
    ModuloIs(i + 1, n);
    ModuloIs(i % n + 1, n);
  }

  lemma {:induction false} StartPassed(looping: seq<bool>, start: nat)
    ensures start <= |looping| ==> PassedOver(looping, start, start)
  {
  }

  lemma {:induction false} PassOneMore(looping: seq<bool>, start: nat, i: nat)
    requires start <= i < 2 * |looping| && PassedOver(looping, start, i) && !looping[Modulo(i, |looping|)]
    ensures PassedOver(looping, start, i + 1)
  {
    ModuloIs(i, |looping|);
  }

  lemma {:induction false} FoundIsChosen(looping: seq<bool>, was: nat, i: nat)
    requires was < |looping| && Start(was, |looping|) <= i < was + 1 + |looping|
    requires PassedOver(looping, Start(was, |looping|), i) && looping[Modulo(i, |looping|)]
    ensures Chosen(looping, was) == Modulo(i, |looping|)
  {
    var n := |looping|;
    ModuloIs(i, n);
    FirstInIs(looping, was + 1, n);
    if i < n && was + 1 < n {
      FirstInUnique(looping, was + 1, n, i);
    } else if i < n {
      FirstInUnique(looping, 0, was + 1, i);
    } else {
      assert Quiet(looping, Start(was, n), n);
      FirstInUnique(looping, 0, was + 1, i - n);
    }
  }

  lemma {:induction false} NotFoundIsChosen(looping: seq<bool>, was: nat)
    requires was < |looping| && PassedOver(looping, Start(was, |looping|), was + 1 + |looping|)
    ensures Chosen(looping, was) == -1
  {
    var n := |looping|;
    assert Quiet(looping, 0, was + 1) && Quiet(looping, Start(was, n), n);
    ChosenIs(looping, was);
  }
}
