/** The sliding window of global voxels and its ring-buffer addressing. */
module VoxelWindow {
  import opened Remainders

  datatype Vec = Vec(x: int, y: int, z: int) {
    function Plus(o: Vec): Vec { Vec(x + o.x, y + o.y, z + o.z) }

    function Minus(o: Vec): Vec { Vec(x - o.x, y - o.y, z - o.z) }

    function At(dim: nat): int
      requires dim < 3
    {
      if dim == 0 then x else if dim == 1 then y else z
    }

    /** True iff every coordinate lies in [0, n) of the matching coordinate of n. */
    predicate Under(n: Vec) { 0 <= x < n.x && 0 <= y < n.y && 0 <= z < n.z }
  }

  /** The index with coordinate c along dim and a, b along the two axes that follow it cyclically. */
  function Across(dim: nat, c: int, a: int, b: int): (v: Vec)
    requires dim < 3
    ensures v.At(dim) == c && v.At((dim + 1) % 3) == a && v.At((dim + 2) % 3) == b
  {
    if dim == 0 then Vec(c, a, b) else if dim == 1 then Vec(b, c, a) else Vec(a, b, c)
  }

  /** C++ `%`: the remainder has the sign of the dividend. */
  function TruncatedRemainder(a: int, n: int): int
    requires 0 < n
  {
    if 0 <= a then a % n else -((-a) % n)
  }

  /** One axis of a global index folded into the buffer. */
  function LocalIndex(id: int, n: int): (l: int)
    requires 0 < n
    ensures 0 <= l < n
  {
    var r := TruncatedRemainder(id, n);
    if r < 0 then r + n else r
  }

  /** Indices fold to the same place exactly when they differ by a multiple of the size. */
  lemma LocalIndexIsEuclidean(id: int, n: int)
    requires 0 < n
    ensures LocalIndex(id, n) == id % n
  {
    if id < 0 {
      var q, r := (-id) / n, (-id) % n;
      assert -id == q * n + r;
      if r == 0 {
        assert id == (-q) * n;
        RemainderUnique(id, n, -q, 0);
      } else {
        assert id == (-q - 1) * n + (n - r);
        RemainderUnique(id, n, -q - 1, n - r);
      }
    }
  }

  /** Pairing a row below n with a column below m gives a number below n * m, and splits back. */
  lemma RowMajorJoin(row: int, col: int, n: int, m: int)
    requires 0 <= row < n && 0 <= col < m
    ensures 0 <= row * m + col < n * m
    ensures (row * m + col) / m == row && (row * m + col) % m == col
  {
    RemainderUnique(row * m + col, m, row, col);
    RowBelow(row, n, m);
  }

  lemma RowBelow(row: int, n: int, m: int)
    requires 0 <= row < n && 0 < m
    ensures 0 <= row * m <= n * m - m
  {
    MultipleGrows(row, m);
    MultipleGrows(n - 1 - row, m);
    assert (n - 1 - row) * m == n * m - m - row * m;
  }

  lemma RowMajorSplit(addr: int, n: int, m: int)
    requires 0 < m && 0 <= addr < n * m
    ensures 0 <= addr / m < n && 0 <= addr % m < m && addr == (addr / m) * m + addr % m
  {
  }

  /** Stepping from a by d < n wraps the folded index at most once. */
  lemma LocalIndexStep(a: int, d: int, n: int)
    requires 0 < n && 0 <= d < n
    ensures LocalIndex(a + d, n) ==
            (if LocalIndex(a, n) + d < n then LocalIndex(a, n) + d else LocalIndex(a, n) + d - n)
  {
    hide LocalIndex;
    LocalIndexIsEuclidean(a, n);
    LocalIndexIsEuclidean(a + d, n);
    var q, r := a / n, a % n;
    assert a == q * n + r;
    if r + d < n {
      RemainderUnique(a + d, n, q, r + d);
    } else {
      assert a + d == (q + 1) * n + (r + d - n);
      RemainderUnique(a + d, n, q + 1, r + d - n);
    }
  }

  /** Two indices less than n apart that fold to the same place are equal. */
  lemma LocalIndexInjective(a: int, b: int, n: int)
    requires 0 < n && a <= b < a + n && LocalIndex(a, n) == LocalIndex(b, n)
    ensures a == b
  {
    LocalIndexStep(a, b - a, n);
  }

  datatype Window = Window(min: Vec, num: Vec) {

    ghost predicate Valid() { 0 < num.x && 0 < num.y && 0 < num.z }

    function Max(): Vec { Vec(min.x + num.x - 1, min.y + num.y - 1, min.z + num.z - 1) }

    function Size(): int { num.x * num.y * num.z }

    predicate InMap(g: Vec) {
      && min.x <= g.x < min.x + num.x
      && min.y <= g.y < min.y + num.y
      && min.z <= g.z < min.z + num.z
    }

    function Local(g: Vec): (l: Vec)
      requires Valid()
      ensures l.Under(num)
    {
      Vec(LocalIndex(g.x, num.x), LocalIndex(g.y, num.y), LocalIndex(g.z, num.z))
    }

    function AddressLocal(l: Vec): int { l.x * num.y * num.z + l.y * num.z + l.z }

    function Address(g: Vec): int
      requires Valid()
    {
      AddressLocal(Local(g))
    }

    /** The local index an address splits into. */
    function SplitAddress(addr: int): Vec
      requires Valid()
    {
      var x := addr / (num.y * num.z);
      var y := (addr - x * num.y * num.z) / num.z;
      Vec(x, y, addr - x * num.y * num.z - y * num.z)
    }

    function UnfoldAxis(l: int, lo: int, n: int): int
      requires 0 < n
    {
      var dist := l - LocalIndex(lo, n);
      lo + (if dist < 0 then dist + n else dist)
    }

    function HashIdToGlobalIndex(addr: int): Vec
      requires Valid()
    {
      var l := SplitAddress(addr);
      Vec(UnfoldAxis(l.x, min.x, num.x), UnfoldAxis(l.y, min.y, num.y), UnfoldAxis(l.z, min.z, num.z))
    }

    lemma AddressLocalNested(l: Vec)
      ensures AddressLocal(l) == l.x * (num.y * num.z) + (l.y * num.z + l.z)
      ensures Size() == num.x * (num.y * num.z)
    {
    }

    lemma SplitAddressNested(addr: int)
      requires Valid()
      ensures 0 < num.y * num.z
      ensures var plane := num.y * num.z;
              SplitAddress(addr) == Vec(addr / plane, addr % plane / num.z, addr % plane % num.z)
    {
      var plane := num.y * num.z;
      var x := addr / plane;
      assert x * num.y * num.z == x * plane;
      assert addr % plane == addr - x * plane;
      var rest := addr % plane;
      assert rest % num.z == rest - rest / num.z * num.z;
    }

    /** Row-major addressing of local indices is a bijection onto [0, Size()). */
    lemma AddressLocalSplits(l: Vec)
      requires Valid() && l.Under(num)
      ensures 0 <= AddressLocal(l) < Size()
      ensures SplitAddress(AddressLocal(l)) == l
    {
      AddressLocalNested(l);
      SplitAddressNested(AddressLocal(l));
      RowMajorJoin(l.y, l.z, num.y, num.z);
      RowMajorJoin(l.x, l.y * num.z + l.z, num.x, num.y * num.z);
    }

    lemma SplitAddressJoins(addr: int)
      requires Valid() && 0 <= addr < Size()
      ensures SplitAddress(addr).Under(num)
      ensures AddressLocal(SplitAddress(addr)) == addr
    {
      SplitAddressNested(addr);
      AddressLocalNested(SplitAddress(addr));
      RowMajorSplit(addr, num.x, num.y * num.z);
      RowMajorSplit(addr % (num.y * num.z), num.y, num.z);
    }

    lemma UnfoldAxisInverts(g: int, lo: int, n: int)
      requires 0 < n && lo <= g < lo + n
      ensures UnfoldAxis(LocalIndex(g, n), lo, n) == g
    {
      LocalIndexStep(lo, g - lo, n);
    }

    lemma FoldAxisInverts(l: int, lo: int, n: int)
      requires 0 < n && 0 <= l < n
      ensures lo <= UnfoldAxis(l, lo, n) < lo + n
      ensures LocalIndex(UnfoldAxis(l, lo, n), n) == l
    {
      LocalIndexStep(lo, UnfoldAxis(l, lo, n) - lo, n);
    }

    /** hashIdToGlobalIndex inverts toAddress on the window. */
    lemma HashInvertsAddress(g: Vec)
      requires Valid() && InMap(g)
      ensures 0 <= Address(g) < Size()
      ensures HashIdToGlobalIndex(Address(g)) == g
    {
      AddressLocalSplits(Local(g));
      UnfoldAxisInverts(g.x, min.x, num.x);
      UnfoldAxisInverts(g.y, min.y, num.y);
      UnfoldAxisInverts(g.z, min.z, num.z);
    }

    /** toAddress inverts hashIdToGlobalIndex on the buffer. */
    lemma AddressInvertsHash(addr: int)
      requires Valid() && 0 <= addr < Size()
      ensures InMap(HashIdToGlobalIndex(addr))
      ensures Address(HashIdToGlobalIndex(addr)) == addr
    {
      SplitAddressJoins(addr);
      var l := SplitAddress(addr);
      FoldAxisInverts(l.x, min.x, num.x);
      FoldAxisInverts(l.y, min.y, num.y);
      FoldAxisInverts(l.z, min.z, num.z);
    }

    /** The voxel stored at each address. */
    ghost function Cells(): (cells: seq<Vec>)
      requires Valid()
      ensures |cells| == Size()
    {
      RowMajorPositive();
      seq(Size(), a => HashIdToGlobalIndex(a))
    }

    /** The local index of each address. */
    ghost function Locals(): (locals: seq<Vec>)
      requires Valid()
      ensures |locals| == Size()
    {
      RowMajorPositive();
      seq(Size(), a => SplitAddress(a))
    }

    lemma LocalsAreBox()
      requires Valid()
      ensures forall a :: 0 <= a < |Locals()| ==> Locals()[a].Under(num) && AddressLocal(Locals()[a]) == a
      ensures forall l: Vec :: l.Under(num) ==> 0 <= AddressLocal(l) < |Locals()| && Locals()[AddressLocal(l)] == l
    {
      forall a | 0 <= a < |Locals()|
        ensures Locals()[a].Under(num) && AddressLocal(Locals()[a]) == a
      {
        SplitAddressJoins(a);
      }
      forall l: Vec | l.Under(num)
        ensures 0 <= AddressLocal(l) < |Locals()| && Locals()[AddressLocal(l)] == l
      {
        AddressLocalSplits(l);
      }
    }

    lemma RowMajorPositive()
      requires Valid()
      ensures 0 < Size()
    {
    }

    /** Each voxel of the window is stored at exactly its own address. */
    lemma CellsAreWindow()
      requires Valid()
      ensures forall a :: 0 <= a < |Cells()| ==> InMap(Cells()[a]) && Address(Cells()[a]) == a
      ensures forall g :: InMap(g) ==> 0 <= Address(g) < |Cells()| && Cells()[Address(g)] == g
    {
      forall a | 0 <= a < |Cells()|
        ensures InMap(Cells()[a]) && Address(Cells()[a]) == a
      {
        AddressInvertsHash(a);
      }
      forall g | InMap(g)
        ensures 0 <= Address(g) < |Cells()| && Cells()[Address(g)] == g
      {
        HashInvertsAddress(g);
      }
    }
  }
}
