/** The ring that holds a lidar's point packets, with its free-running 32-bit indices. */
module LivoxQueue {
  import opened Remainders

  const TWO_TO_THE_32: int := 0x1_0000_0000

  function Power(k: nat): (r: nat)
    ensures 0 < r
  {
    if k == 0 then 1 else 2 * Power(k - 1)
  }

  lemma {:induction false} PowerDivides(k: nat, m: nat)
    requires k <= m
    ensures Power(m) % Power(k) == 0
    decreases m - k
  {
    if k < m {
      PowerDivides(k + 1, m);
      DoublesDivide(Power(m), Power(k));
    } else {
      RemainderUnique(Power(m), Power(k), 1, 0);
    }
  }

  lemma DoublesDivide(a: nat, n: nat)
    requires 0 < n && a % (2 * n) == 0
    ensures a % n == 0
  {
    var q := a / (2 * n);
    assert a == q * (2 * n) == 2 * q * n;
    RemainderUnique(a, n, 2 * q, 0);
  }

  lemma PowerOf32()
    ensures Power(32) == TWO_TO_THE_32
  {
    assert Power(4) == 16 && Power(8) == 256;
    assert Power(16) == 65536;
    assert Power(24) == 16777216;
  }

  /** The smallest power of two not below size, or the largest of 32 bits when there is none. */
  method RoundupPowerOf2(size: nat) returns (power: nat, ghost k: nat)
    ensures k < 32 && power == Power(k)
    ensures size <= Power(31) ==> size <= power && (0 < k ==> Power(k - 1) < size)
  {
    var i := 0;
    power, k := 1, 0;
    while i < 32
      invariant 0 <= i <= 32 && (0 < i ==> k == i - 1 && power < size)
      invariant k < 32 && power == Power(k)
    {
      power := if i == 0 then 1 else 2 * power;
      k := i;
      if size <= power {
        break;
      }
      i := i + 1;
    }
  }

  /** One past a 32-bit index, and the difference of two, as unsigned arithmetic has them. */
  function Increment(a: nat): nat { if a + 1 == TWO_TO_THE_32 then 0 else a + 1 }

  function Difference(a: nat, b: nat): int { if b <= a then a - b else a - b + TWO_TO_THE_32 }

  /** Wrapping a 32-bit index does not change the slot it selects. */
  lemma WrapKeepsSlot(x: nat, size: nat)
    requires 0 < size && TWO_TO_THE_32 % size == 0
    ensures (x + TWO_TO_THE_32) % size == x % size
  {
    var c := TWO_TO_THE_32 / size;
    assert TWO_TO_THE_32 == c * size;
    var q, r := x / size, x % size;
    assert x == q * size + r;
    assert x + TWO_TO_THE_32 == (q + c) * size + r;
    RemainderUnique(x + TWO_TO_THE_32, size, q + c, r);
  }

  /** Places less than size apart have different slots. */
  lemma SlotsDiffer(a: nat, b: nat, size: nat)
    requires 0 < size && a < b < a + size
    ensures a % size != b % size
  {
    var p, q := a / size, b / size;
    assert a == p * size + a % size && b == q * size + b % size;
    assert (q - p) * size == q * size - p * size;
    MultipleGrows(q - p, size);
  }

  /** The write index selects the slot after the last packet waiting. */
  lemma WriteSlot(rd: nat, wr: nat, size: nat)
    requires rd < TWO_TO_THE_32 && wr < TWO_TO_THE_32
    requires 0 < size && TWO_TO_THE_32 % size == 0
    ensures (rd + Difference(wr, rd)) % size == wr % size
  {
    WrapKeepsSlot(wr, size);
  }

  lemma ReadSlot(rd: nat, k: nat, size: nat)
    requires rd < TWO_TO_THE_32 && 0 < size && TWO_TO_THE_32 % size == 0
    ensures (Increment(rd) + k) % size == (rd + (k + 1)) % size
  {
    WrapKeepsSlot(k, size);
  }

  /** The packet k places after the oldest one. */
  function Place<P>(storage: seq<P>, rd: nat, k: nat): P
    requires 0 < |storage|
  {
    storage[(rd + k) % |storage|]
  }

  class LidarDataQueue<P(0)> {
    var storage: array<P>
    var rd: nat
    var wr: nat

    ghost predicate Valid()
      reads this
    {
      && 0 < storage.Length < TWO_TO_THE_32 && TWO_TO_THE_32 % storage.Length == 0
      && rd < TWO_TO_THE_32 && wr < TWO_TO_THE_32 && Difference(wr, rd) <= storage.Length
    }

    /** The packets waiting, oldest first. */
    ghost function Contents(): (r: seq<P>)
      requires Valid()
      reads this, storage
      ensures |r| == Difference(wr, rd)
      ensures forall k :: 0 <= k < |r| ==> r[k] == Place(storage[..], rd, k)
    {
      var (cells, first) := (storage[..], rd);
      seq(Difference(wr, rd), k requires 0 <= k => Place(cells, first, k))
    }

    constructor (size: nat)
      ensures Valid() && fresh(storage) && Contents() == []
      ensures 0 < size <= Power(31) ==> size <= storage.Length < 2 * size
    {
      var power, k := RoundupPowerOf2(size);
      storage, rd, wr := new P[power], 0, 0;
      PowerDivides(k, 32);
      PowerOf32();
      PowerGrows(k, 31);
    }

    predicate IsFull()
      reads this
    {
      Difference(wr, rd) > storage.Length - 1
    }

    predicate IsEmpty()
      reads this
    {
      rd == wr
    }

    lemma FullAndEmpty()
      requires Valid()
      ensures IsEmpty() <==> Contents() == []
      ensures IsFull() <==> |Contents()| == storage.Length
    {
    }

    method PushAny(packet: P)
      requires Valid() && !IsFull()
      modifies this`wr, storage
      ensures Valid() && storage == old(storage) && Contents() == old(Contents()) + [packet]
    {
      ghost var was, n, size, cells := Contents(), Difference(wr, rd), storage.Length, storage[..];
      WriteSlot(rd, wr, size);
      storage[wr % storage.Length] := packet;
      wr := Increment(wr);
      forall k | 0 <= k < n
        ensures Place(storage[..], rd, k) == Place(cells, rd, k)
      {
        SlotsDiffer(rd + k, rd + n, size);
      }
      assert Place(storage[..], rd, n) == packet;
      assert Contents() == was + [packet];
    }

    method Pop() returns (packet: P)
      requires Valid() && !IsEmpty()
      modifies this`rd
      ensures Valid() && old(Contents()) == [packet] + Contents()
    {
      ghost var was, size, r := Contents(), storage.Length, rd;
      packet := storage[rd % storage.Length];
      rd := Increment(rd);
      assert was[0] == Place(storage[..], r, 0) == packet;
      forall k | 0 <= k < |was| - 1
        ensures Place(storage[..], rd, k) == Place(storage[..], r, k + 1)
      {
        ReadSlot(r, k, size);
      }
      assert was == [packet] + Contents();
    }
  }

  lemma {:induction false} PowerGrows(k: nat, m: nat)
    requires k <= m
    ensures Power(k) <= Power(m)
    decreases m - k
  {
    if k < m {
      PowerGrows(k + 1, m);
    }
  }
}
