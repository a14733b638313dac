/** Products of reals by name: hiding Times keeps the steps that only rearrange sums linear. */
module Products {
  function Times(k: real, x: real): real { k * x }

  lemma TimesOfSum(k: real, x: real, y: real, z: real)
    requires z == x + y
    ensures Times(k, z) == Times(k, x) + Times(k, y)
  {
  }

  lemma TimesOfThree(k: real, x: real, y: real, z: real, t: real)
    requires t == x + y + z
    ensures Times(k, t) == Times(k, x) + Times(k, y) + Times(k, z)
  {
    TimesOfSum(k, x + y, z, t);
    TimesOfSum(k, x, y, x + y);
  }

  lemma TimesZero(k: real)
    ensures Times(k, 0.0) == 0.0 && Times(0.0, k) == 0.0
  {
  }

  lemma TimesSwaps(c: real, k: real, x: real)
    ensures Times(c, Times(k, x)) == Times(k, Times(c, x))
  {
    assert c * (k * x) == k * (c * x);
  }

  lemma TimesSign(a: real, b: real)
    ensures 0.0 <= a && 0.0 <= b ==> 0.0 <= Times(a, b)
    ensures 0.0 < a && 0.0 < b ==> 0.0 < Times(a, b)
  {
  }

  lemma TimesNext(n: nat, x: real)
    ensures Times((n + 1) as real, x) == Times(n as real, x) + x
  {
    assert (n + 1) as real == n as real + 1.0;
  }

  lemma TimesOpposite(k: real, x: real)
    ensures Times(k, -x) == -Times(k, x)
  {
  }
}
