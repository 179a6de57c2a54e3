/** The cache's configuration and its address split (cache/cache.h, cache/cache.cpp). */
module CacheIndex {
  import opened Words
  import opened MemoryModel
  import opened InterconnectModel

  // ---- Configuration and address split ----

  datatype Config = Config(size: uint32, lineSize: uint32, ways: uint32)

  function NumLines(c: Config): uint32
    requires c.lineSize > 0
  {
    c.size / c.lineSize
  }

  function NumSets(c: Config): uint32
    requires c.lineSize > 0 && c.ways > 0
  {
    NumLines(c) / c.ways
  }

  /** As many sets as whole groups of `ways` lines fit the size. */
  lemma Capacity(c: Config)
    requires c.lineSize > 0 && c.ways > 0
    ensures c.lineSize * c.ways * NumSets(c) <= c.size < c.lineSize * c.ways * (NumSets(c) + 1)
  {
    DivideByProduct(c.size, c.lineSize, c.ways);
    var group := c.lineSize * c.ways;
    RoundDown(c.size, group);
    assert group * (NumSets(c) + 1) == group * NumSets(c) + group;
  }

  ghost predicate PowerOfTwo(n: nat) { exists k: nat :: n == Pow2(k) }

  /** What the index arithmetic needs: a power-of-two line that fits memory, and a set. */
  ghost predicate ValidConfig(c: Config) {
    c.lineSize > 0 && PowerOfTwo(c.lineSize) && c.lineSize <= SIZE && c.ways > 0 && NumSets(c) > 0
  }

  type Geometry = c: Config | ValidConfig(c)
    ghost witness (assert 16 == Pow2(4); Config(4096, 16, 4))

  /** Bytes covered by one tag step; the source forms the product in 32 bits. */
  function Stride(c: Geometry): (r: nat)
    ensures r == c.lineSize * NumSets(c) > 0
  {
    StrideExact(c);
    Wrap32(c.lineSize * NumSets(c))
  }

  function LineOffset(c: Geometry, addr: uint64): nat
  {
    And(addr, c.lineSize - 1)
  }

  function SetIndex(c: Geometry, addr: uint64): (s: nat)
    ensures s < NumSets(c)
  {
    addr / c.lineSize % NumSets(c)
  }

  /** The tag as returned, cut to 32 bits. */
  function Tag(c: Geometry, addr: uint64): uint32 {
    Wrap32(addr / Stride(c))
  }

  /** The address of the line around addr, as fill_line masks it. */
  function LineAddress(c: Geometry, addr: uint64): nat
  {
    And(addr, TWO64 - c.lineSize)
  }

  /** The block number of an address; its set and tag are remainder and quotient. */
  function Block(c: Geometry, addr: nat): nat
  {
    addr / c.lineSize
  }

  lemma StrideExact(c: Config)
    requires ValidConfig(c)
    ensures 0 < Wrap32(c.lineSize * NumSets(c)) == c.lineSize * NumSets(c)
  {
    var n, l := NumSets(c), c.lineSize;
    var m := NumLines(c);
    ProductMonotone(c.ways, 1, n);
    assert n * 1 <= n * c.ways by {
      ProductMonotone(n, 1, c.ways);
    }
    assert n <= m;
    ProductMonotone(l, n, m);
    ProductMonotone(l, 1, n);
    assert l * m <= c.size;
    WrapSmall(l * n);
  }

  /** The tag of every address the CPU can form fits 32 bits. */
  predicate TagFits(c: Geometry, addr: uint64)
  {
    Block(c, addr) / NumSets(c) < TWO32
  }

  lemma CpuTagFits(c: Geometry, addr: uint64)
    requires addr < TWO32
    ensures TagFits(c, addr)
  {
    var b := addr / c.lineSize;
    var n := NumSets(c);
    QuotientShrinks(addr, c.lineSize);
    QuotientShrinks(b, n);
  }

  /** The mask, quotient and remainder of the source are remainder, quotient and remainder
      of the block number. */
  lemma SplitIs(c: Geometry, addr: uint64)
    requires TagFits(c, addr)
    ensures LineOffset(c, addr) == addr % c.lineSize < c.lineSize
    ensures SetIndex(c, addr) == Block(c, addr) % NumSets(c)
    ensures Tag(c, addr) == Block(c, addr) / NumSets(c)
  {
    OffsetIs(c, addr);
    TagIs(addr, c.lineSize, NumSets(c), Stride(c));
  }

  lemma TagIs(addr: nat, l: nat, n: nat, stride: nat)
    requires l > 0 && n > 0 && stride == l * n && addr / l / n < TWO32
    ensures stride > 0 && Wrap32(addr / stride) == addr / l / n
  {
    DivideByProduct(addr, l, n);
    var t := addr / l / n;
    ProductMonotone(1, 0, addr / l);
    WrapSmall(t);
  }

  lemma OffsetIs(c: Geometry, addr: uint64)
    ensures LineOffset(c, addr) == addr % c.lineSize < c.lineSize
  {
    var k: nat :| c.lineSize == Pow2(k);
    AndLowMask(addr, k);
  }

  /** The masked line address is the start of the block. */
  lemma LineAddressIs(c: Geometry, addr: uint64)
    ensures LineAddress(c, addr) == addr - addr % c.lineSize == c.lineSize * Block(c, addr)
    ensures Block(c, LineAddress(c, addr)) == Block(c, addr)
  {
    var k: nat :| c.lineSize == Pow2(k);
    RoundDown(addr, c.lineSize);
    MaskRoundsDown(addr, k);
  }

  lemma MaskRoundsDown(addr: uint64, k: nat)
    requires Pow2(k) <= SIZE
    ensures And(addr, TWO64 - Pow2(k)) == addr - addr % Pow2(k)
  {
    Pow2Of64();
    ExponentBound(k, 64);
    AndHighMask(addr, k, 64);
  }

  lemma Pow2Of64()
    ensures Pow2(64) == TWO64 && Pow2(23) == SIZE
  {
    assert Pow2(8) == 256;
    Pow2Sum(8, 8);
    Pow2Sum(16, 16);
    Pow2Sum(32, 32);
    assert Pow2(7) == 128;
    Pow2Sum(16, 7);
  }

  lemma {:induction false} Pow2Sum(a: nat, b: nat)
    ensures Pow2(a + b) == Pow2(a) * Pow2(b)
  {
    if b > 0 {
      Pow2Sum(a, b - 1);
      assert Pow2(a + b) == 2 * Pow2(a + (b - 1));
      Regroup(Pow2(a), 2, Pow2(b - 1), 0);
    }
  }

  lemma {:induction false} ExponentBound(k: nat, n: nat)
    requires Pow2(k) <= Pow2(n)
    ensures k <= n
  {
    if k > n {
      Pow2Monotone(n, k - 1);
    }
  }

  /** Set and tag name the block: the split loses nothing. */
  lemma SplitInjective(c: Geometry, a: uint64, b: uint64)
    requires TagFits(c, a) && TagFits(c, b)
    ensures Block(c, a) == Block(c, b) <==> Tag(c, a) == Tag(c, b) && SetIndex(c, a) == SetIndex(c, b)
    ensures a == b <==> Block(c, a) == Block(c, b) && LineOffset(c, a) == LineOffset(c, b)
  {
    SplitIs(c, a);
    SplitIs(c, b);
    if Tag(c, a) == Tag(c, b) && SetIndex(c, a) == SetIndex(c, b) {
      SameSplit(Block(c, a), Block(c, b), NumSets(c));
    }
    if Block(c, a) == Block(c, b) && LineOffset(c, a) == LineOffset(c, b) {
      SameSplit(a, b, c.lineSize);
    }
  }

  /** Every triple within its bounds is the split of an address: with SplitInjective, of
      exactly one. */
  lemma SplitSurjective(c: Geometry, tag: uint32, index: nat, offset: nat) returns (addr: uint64)
    requires index < NumSets(c) && offset < c.lineSize
    ensures TagFits(c, addr)
    ensures Tag(c, addr) == tag && SetIndex(c, addr) == index && LineOffset(c, addr) == offset
  {
    var a := Compose(c.lineSize, NumSets(c), tag, index, offset);
    StrideExact(c);
    ComposedBelow(a, c.lineSize, NumSets(c), tag);
    addr := a;
    SplitIs(c, addr);
  }

  lemma ComposedBelow(a: nat, l: nat, n: nat, tag: uint32)
    requires l > 0 && n > 0 && l * n < TWO32 && a / l / n == tag
    ensures a < TWO64
  {
    DivideByProduct(a, l, n);
    var m := l * n;
    assert a == m * (a / m) + a % m;
    ProductMonotone(m, a / m, TWO32 - 1);
    assert m * (TWO32 - 1) + m == m * TWO32;
  }

  lemma Compose(l: nat, n: nat, tag: nat, index: nat, offset: nat) returns (addr: nat)
    requires index < n && offset < l
    ensures addr % l == offset && addr / l % n == index && addr / l / n == tag
  {
    var block := n * tag + index;
    ProductMonotone(n, 0, tag);
    ProductMonotone(l, 0, block);
    addr := l * block + offset;
    QuotientIs(addr, l, block, offset);
    QuotientIs(block, n, tag, index);
  }

  // ---- Blocks in memory ----

  /** An access inside one line of memory. */
  predicate InLine(c: Geometry, addr: uint64, len: nat)
  {
    InMemory(addr) && addr % c.lineSize + len <= c.lineSize
  }

  /** Memory and the distance of its aliases are whole numbers of lines. */
  lemma WholeLines(c: Geometry) returns (q: nat)
    ensures c.lineSize * q == SIZE && c.lineSize * (q * 256) == HIGH
  {
    var k: nat :| c.lineSize == Pow2(k);
    Pow2Of64();
    ExponentBound(k, 23);
    q := WholeBlocks(c.lineSize, k);
  }

  lemma WholeBlocks(l: nat, k: nat) returns (q: nat)
    requires k <= 23 && l == Pow2(k) && Pow2(23) == SIZE
    ensures l * q == SIZE && l * (q * 256) == HIGH
  {
    Pow2Divides(k, 23);
    q := SIZE / l;
    assert l * q == SIZE;
    Regroup(l, q, 256, 0);
  }

  lemma RoundedFits(a: nat, m: nat, q: nat)
    requires m > 0 && a < m * q
    ensures 0 <= a - a % m && a - a % m + m <= m * q
  {
    RoundDown(a, m);
    MultipleIsFar(m, q - a / m);
    assert m * (q - a / m) == m * q - m * (a / m);
  }

  lemma ModShift(a: nat, m: nat, q: nat)
    requires m > 0
    ensures (a + m * q) % m == a % m
  {
    Regroup(m, 1, a / m + q, 0);
    QuotientIs(a + m * q, m, a / m + q, a % m);
  }

  /** The line around a memory address stays inside one alias. */
  lemma LineInAlias(c: Geometry, addr: uint64)
    requires InMemory(addr)
    ensures var r := addr - addr % c.lineSize;
            && r >= 0
            && (addr < SIZE ==> r + c.lineSize <= SIZE)
            && (addr >= HIGH ==> HIGH <= r && r + c.lineSize <= HIGH + SIZE)
  {
    var q := WholeLines(c);
    if addr < SIZE {
      RoundedFits(addr, c.lineSize, q);
    } else {
      RoundedFits(addr - HIGH, c.lineSize, q);
      ModShift(addr - HIGH, c.lineSize, q * 256);
    }
  }

  /** Its memory offset is that of the address, rounded down. */
  lemma BlockInMemory(c: Geometry, addr: uint64)
    requires InMemory(addr)
    ensures LineAddress(c, addr) < TWO64 && InMemory(LineAddress(c, addr))
    ensures TagFits(c, addr) && TagFits(c, LineAddress(c, addr))
    ensures 0 <= Phys(addr) - addr % c.lineSize == Phys(LineAddress(c, addr))
    ensures Phys(LineAddress(c, addr)) + c.lineSize <= SIZE
  {
    LineAddressIs(c, addr);
    LineInAlias(c, addr);
    CpuTagFits(c, addr);
    CpuTagFits(c, addr - addr % c.lineSize);
  }

  /** Bytes of one line share the block and have consecutive memory offsets. */
  lemma SameLine(c: Geometry, addr: uint64, i: nat)
    requires InMemory(addr) && addr % c.lineSize + i < c.lineSize
    ensures InMemory(addr + i) && Phys(addr + i) == Phys(addr) + i
    ensures Block(c, addr + i) == Block(c, addr) && (addr + i) % c.lineSize == addr % c.lineSize + i
  {
    LineInAlias(c, addr);
    var l := c.lineSize;
    QuotientIs(addr + i, l, addr / l, addr % l + i);
  }
}
