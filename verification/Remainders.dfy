/** Facts about quotients and remainders that the ring buffers rest on. */
module Remainders {
  lemma MultipleGrows(k: int, n: int)
    requires 0 < n
    ensures 1 <= k ==> n <= k * n
    ensures 0 <= k ==> 0 <= k * n
    ensures k <= -1 ==> k * n <= -n
  {
  }

  lemma RemainderUnique(a: int, n: int, q: int, r: int)
    requires 0 < n && 0 <= r < n && a == q * n + r
    ensures a % n == r && a / n == q
  {
    var q', r' := a / n, a % n;
    assert a == q' * n + r';
    assert (q - q') * n == r' - r;
    MultipleGrows(q - q', n);
  }
}
