/** Multisets: sums taken apart and put together again. */
module Multisets {
  /** What is exchanged in a part is exchanged in the whole. */
  lemma {:induction false} Exchange<T>(a: multiset<T>, r: multiset<T>, r': multiset<T>, b: multiset<T>, b': multiset<T>)
    requires r + b == r' + b'
    ensures a + r + b == a + r' + b'
  {
    assert a + r + b == a + (r + b);
  }
}
