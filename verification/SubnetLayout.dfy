/**
  The 32-bit arithmetic that carves a base network into equal subnets
  (internal/mesh/allocator.go).  A network is its first address and its prefix
  length; every addition, multiplication and shift of the source wraps at 2^32.
*/
module SubnetLayout {
  import opened Wrappers

  const WORD := 0x1_0000_0000

  function Pow2(n: nat): (p: int)
    ensures p >= 1
  {
    if n == 0 then 1 else 2 * Pow2(n - 1)
  }

  datatype Net = Net(ip: int, bits: nat)

  predicate Address(a: int) {
    0 <= a < WORD
  }

  /** The address, masked with the prefix, is the network's address. */
  predicate Contains(net: Net, a: int)
    requires net.bits <= 32
  {
    Address(a) && a / Pow2(32 - net.bits) == net.ip / Pow2(32 - net.bits)
  }

  function Quotient(a: nat, b: nat): nat
    requires b > 0
  {
    a / b
  }

  datatype Layout = Layout(base: Net, subnetBits: nat) {

    /** A masked base and a longer prefix, all that NewAllocatorCustom asks for. */
    predicate Accepted() {
      && base.bits < subnetBits && Address(base.ip)
      && (base.bits <= 32 ==> base.ip % Pow2(32 - base.bits) == 0)
    }

    /** The subnets are IPv4 networks. */
    predicate Legal() {
      Accepted() && subnetBits <= 32
    }

    /** 1 << 32 is 0 in 32 bits, so single addresses of 0.0.0.0/0 leave no room. */
    predicate HasRoom() {
      base.bits != 0 || subnetBits != 32
    }

    function MaxIndex(): nat
      requires Accepted()
    {
      Pow2(subnetBits - base.bits) % WORD
    }

    /** Shifting by a negative count, as by 32 or more, gives 0. */
    function SubnetSize(): nat
      requires Accepted()
    {
      if subnetBits <= 32 then Pow2(32 - subnetBits) % WORD else 0
    }

    function SubnetFor(idx: int): Net
      requires Accepted()
    {
      Net((base.ip + idx * SubnetSize() % WORD) % WORD, subnetBits)
    }

    function IndexOf(net: Net): nat
      requires Accepted()
    {
      if SubnetSize() == 0 then 0 else Quotient((net.ip - base.ip) % WORD, SubnetSize())
    }

    /** An aligned network of the right size inside the base network. */
    predicate IsBlock(net: Net)
      requires Legal()
    {
      && net.bits == subnetBits
      && net.ip % Pow2(32 - subnetBits) == 0
      && Contains(base, net.ip)
    }
  }

  // ---- powers of two ----------------------------------------------------

  lemma {:induction false} Pow2Add(a: nat, b: nat)
    ensures Pow2(a + b) == Pow2(a) * Pow2(b)
  {
    if a > 0 {
      Pow2Add(a - 1, b);
      assert Pow2(a + b) == 2 * Pow2(a - 1 + b);
      assert 2 * (Pow2(a - 1) * Pow2(b)) == (2 * Pow2(a - 1)) * Pow2(b);
    }
  }

  lemma Pow2Word()
    ensures Pow2(32) == WORD
  {
    assert Pow2(8) == 256;
    Pow2Add(8, 8);
    assert Pow2(16) == 65536;
    Pow2Add(16, 16);
  }

  lemma {:induction false} Pow2Mono(a: nat, b: nat)
    requires a < b
    ensures Pow2(a) < Pow2(b)
  {
    if a + 1 < b {
      Pow2Mono(a, b - 1);
    }
  }

  // ---- blocks of integers -----------------------------------------------

  lemma MulLe(a: int, b: int, d: int)
    requires a <= b && d >= 0
    ensures a * d <= b * d
  {
  }

  lemma MulCancel(a: int, b: int, d: int)
    requires d > 0 && a * d < b * d
    ensures a < b
  {
  }

  lemma MulAdd(a: int, b: int, d: int)
    ensures (a + b) * d == a * d + b * d
  {
  }

  lemma DivUnique(x: int, d: int, q: int, r: int)
    requires d > 0 && x == q * d + r && 0 <= r < d
    ensures x / d == q && x % d == r
  {
    var p := x / d;
    assert x == p * d + x % d;
    MulAdd(q, 1, d);
    MulAdd(p, 1, d);
    MulCancel(p, q + 1, d);
    MulCancel(q, p + 1, d);
  }

  /** An aligned block that starts within `n` blocks also ends within them. */
  lemma AlignedFits(ip: int, whole: int, n: int)
    requires whole >= 1 && n >= 1 && ip % whole == 0 && 0 <= ip < n * whole
    ensures ip + whole <= n * whole
  {
    var q := ip / whole;
    assert ip == q * whole;
    MulCancel(q, n, whole);
    MulLe(q + 1, n, whole);
    MulAdd(q, 1, whole);
  }

  lemma AlignedFiner(ip: int, count: int, size: int, whole: int)
    requires count >= 1 && size >= 1 && whole == count * size >= 1 && ip % whole == 0
    ensures ip % size == 0
  {
    var q := ip / whole;
    assert ip == q * whole;
    assert q * (count * size) == (q * count) * size;
    DivUnique(ip, size, q * count, 0);
  }

  /** Block `idx` of `count` blocks lies within them, without overflow. */
  lemma BlockArith(base: int, size: int, count: int, idx: int)
    requires size >= 1 && base >= 0 && base % size == 0 && base + count * size <= WORD && 0 <= idx < count
    ensures 0 <= idx * size && idx * size + size <= count * size
    ensures (base + idx * size) % size == 0
    ensures idx * size / size == idx
  {
    MulLe(0, idx, size);
    MulLe(idx + 1, count, size);
    MulAdd(idx, 1, size);
    var q := base / size;
    assert base == q * size;
    MulAdd(q, idx, size);
    DivUnique(base + idx * size, size, q + idx, 0);
    DivUnique(idx * size, size, idx, 0);
  }

  /** Every aligned address within `count` blocks starts one of them. */
  lemma IndexArith(base: int, size: int, count: int, ip: int) returns (idx: int)
    requires size >= 1 && base % size == 0 && ip % size == 0 && base <= ip < base + count * size
    ensures 0 <= idx < count && ip == base + idx * size
  {
    var p, q := ip / size, base / size;
    assert ip == p * size && base == q * size;
    idx := p - q;
    MulAdd(idx, q, size);
    MulCancel(idx, count, size);
    MulAdd(idx, 1, size);
    MulCancel(0, idx + 1, size);
  }

  /** Every address within `count` blocks lies in one of them. */
  lemma CoverArith(base: int, size: int, count: int, a: int) returns (idx: int)
    requires size >= 1 && base <= a < base + count * size
    ensures 0 <= idx < count && base + idx * size <= a < base + idx * size + size
  {
    var offset := a - base;
    idx := offset / size;
    assert offset == idx * size + offset % size;
    MulCancel(idx, count, size);
    MulAdd(idx, 1, size);
    MulCancel(0, idx + 1, size);
  }

  lemma DisjointArith(base: int, size: int, i: int, j: int, a: int)
    requires size >= 1
    requires base + i * size <= a < base + i * size + size
    requires base + j * size <= a < base + j * size + size
    ensures i == j
  {
    MulAdd(i, 1, size);
    MulAdd(j, 1, size);
    MulCancel(i, j + 1, size);
    MulCancel(j, i + 1, size);
  }

  /** Masking leaves an aligned address exactly for the addresses of its block. */
  lemma SameBlock(ip: int, a: int, size: int)
    requires size >= 1 && ip % size == 0
    ensures a / size == ip / size <==> ip <= a < ip + size
  {
    var q := ip / size;
    assert ip == q * size;
    assert a == (a / size) * size + a % size;
    if ip <= a < ip + size {
      DivUnique(a, size, q, a - ip);
    }
  }

  /** The base network ends within the 32-bit range. */
  lemma BaseFits(l: Layout)
    requires l.Legal()
    ensures l.base.ip + Pow2(32 - l.base.bits) <= WORD
  {
    Pow2Word();
    Pow2Add(l.base.bits, 32 - l.base.bits);
    AlignedFits(l.base.ip, Pow2(32 - l.base.bits), Pow2(l.base.bits));
  }

  lemma ShiftedCount(l: Layout)
    requires l.Legal()
    ensures l.MaxIndex() == if l.HasRoom() then Pow2(l.subnetBits - l.base.bits) else 0
    ensures l.SubnetSize() == Pow2(32 - l.subnetBits)
  {
    Pow2Word();
    Pow2Mono(32 - l.subnetBits, 32);
    if l.HasRoom() {
      Pow2Mono(l.subnetBits - l.base.bits, 32);
    }
  }

  /** What the layout's numbers are: `count` blocks of `size` addresses fill the
      base network. */
  lemma Sizes(l: Layout) returns (count: int, size: int)
    requires l.Legal()
    ensures size == Pow2(32 - l.subnetBits) == l.SubnetSize() && size >= 1
    ensures count == Pow2(l.subnetBits - l.base.bits) >= 1
    ensures count * size == Pow2(32 - l.base.bits)
    ensures l.base.ip + count * size <= WORD
    ensures l.MaxIndex() == if l.HasRoom() then count else 0
    ensures l.base.ip % size == 0
  {
    size := Pow2(32 - l.subnetBits);
    count := Pow2(l.subnetBits - l.base.bits);
    BaseFits(l);
    ShiftedCount(l);
    Pow2Add(l.subnetBits - l.base.bits, 32 - l.subnetBits);
    AlignedFiner(l.base.ip, count, size, Pow2(32 - l.base.bits));
  }

  // ---- main results -----------------------------------------------------

  lemma InsideBase(l: Layout, a: int)
    requires l.Legal()
    ensures Contains(l.base, a) <==> l.base.ip <= a < l.base.ip + Pow2(32 - l.base.bits)
  {
    var count, size := Sizes(l);
    SameBlock(l.base.ip, a, Pow2(32 - l.base.bits));
  }

  lemma BlockNet(l: Layout, idx: int, size: int, offset: int)
    requires l.Legal() && size == l.SubnetSize() >= 1
    requires offset == idx * size && 0 <= offset && l.base.ip + offset < WORD && offset / size == idx
    ensures l.SubnetFor(idx) == Net(l.base.ip + offset, l.subnetBits)
    ensures l.IndexOf(Net(l.base.ip + offset, l.subnetBits)) == idx
  {
    NoWrap(offset);
    NoWrap(l.base.ip + offset);
  }

  lemma NoWrap(x: int)
    requires 0 <= x < WORD
    ensures x % WORD == x
  {
  }

  lemma BlockInside(l: Layout, count: int, size: int, offset: int)
    requires l.Legal() && size == Pow2(32 - l.subnetBits) && count * size == Pow2(32 - l.base.bits)
    requires 0 <= offset && offset + size <= count * size && (l.base.ip + offset) % size == 0
    ensures l.IsBlock(Net(l.base.ip + offset, l.subnetBits))
  {
    InsideBase(l, l.base.ip + offset);
  }

  /** No step of the computation overflows: block `idx` starts `idx` blocks
      after the base address, is aligned, lies inside the base network and has
      `idx` as its index. */
  lemma BlockAt(l: Layout, idx: int)
    requires l.Legal() && 0 <= idx < l.MaxIndex()
    ensures l.SubnetFor(idx) == Net(l.base.ip + idx * Pow2(32 - l.subnetBits), l.subnetBits)
    ensures l.IsBlock(l.SubnetFor(idx))
    ensures l.IndexOf(l.SubnetFor(idx)) == idx
  {
    var count, size := Sizes(l);
    BlockArith(l.base.ip, size, count, idx);
    var offset := idx * size;
    BlockNet(l, idx, size, offset);
    BlockInside(l, count, size, offset);
  }

  /** Subnet to index and back: every block of the base network has an index. */
  lemma IndexedBlock(l: Layout, net: Net)
    requires l.Legal() && l.HasRoom() && l.IsBlock(net)
    ensures 0 <= l.IndexOf(net) < l.MaxIndex() && l.SubnetFor(l.IndexOf(net)) == net
  {
    var count, size := Sizes(l);
    InsideBase(l, net.ip);
    var idx := IndexArith(l.base.ip, size, count, net.ip);
    BlockAt(l, idx);
  }

  lemma InsideBlock(l: Layout, idx: int, a: int)
    requires l.Legal() && 0 <= idx < l.MaxIndex()
    ensures var size := Pow2(32 - l.subnetBits);
      Contains(l.SubnetFor(idx), a) <==> l.base.ip + idx * size <= a < l.base.ip + idx * size + size
  {
    BlockAt(l, idx);
    var count, size := Sizes(l);
    BlockArith(l.base.ip, size, count, idx);
    SameBlock(l.base.ip + idx * size, a, size);
  }

  predicate Covers(l: Layout, idx: int, a: int)
    requires l.Legal()
  {
    0 <= idx < l.MaxIndex() && Contains(l.SubnetFor(idx), a)
  }

  /** Distinct indices give disjoint blocks. */
  lemma BlocksDisjoint(l: Layout, i: int, j: int, a: int)
    requires l.Legal() && Covers(l, i, a) && Covers(l, j, a)
    ensures i == j
  {
    InsideBlock(l, i, a);
    InsideBlock(l, j, a);
    DisjointArith(l.base.ip, Pow2(32 - l.subnetBits), i, j, a);
  }

  lemma BlockInsideBase(l: Layout, i: int, a: int)
    requires l.Legal() && Covers(l, i, a)
    ensures Contains(l.base, a)
  {
    InsideBlock(l, i, a);
    InsideBase(l, a);
    var count, size := Sizes(l);
    BlockArith(l.base.ip, size, count, i);
  }

  lemma Covered(l: Layout, a: int) returns (idx: int)
    requires l.Legal() && l.HasRoom() && Contains(l.base, a)
    ensures Covers(l, idx, a)
  {
    InsideBase(l, a);
    var count, size := Sizes(l);
    idx := CoverArith(l.base.ip, size, count, a);
    InsideBlock(l, idx, a);
  }

  /** Every address of the base network lies in a block, unless there are 2^32. */
  lemma TilesIff(l: Layout)
    requires l.Legal()
    ensures (forall a :: Contains(l.base, a) ==> exists idx :: Covers(l, idx, a)) <==> l.HasRoom()
  {
    if l.HasRoom() {
      forall a | Contains(l.base, a)
        ensures exists idx :: Covers(l, idx, a)
      {
        var idx := Covered(l, a);
      }
    } else {
      var count, size := Sizes(l);
      assert Contains(l.base, l.base.ip);
      assert forall idx :: !Covers(l, idx, l.base.ip);
    }
  }

  /** Distinct indices give distinct subnets exactly when the prefix fits into
      32 bits, or leaves no index at all: a longer one is accepted, too. */
  lemma DistinctIff(l: Layout)
    requires l.Accepted()
    ensures (forall i, j :: 0 <= i < l.MaxIndex() && 0 <= j < l.MaxIndex() && l.SubnetFor(i) == l.SubnetFor(j) ==> i == j)
      <==> l.Legal() || l.MaxIndex() == 0
  {
    if l.Legal() {
      forall i, j | 0 <= i < l.MaxIndex() && 0 <= j < l.MaxIndex() && l.SubnetFor(i) == l.SubnetFor(j)
        ensures i == j
      {
        BlockAt(l, i);
        BlockAt(l, j);
      }
    } else if l.MaxIndex() > 0 {
      TwoIndices(l);
      assert l.SubnetFor(0) == l.SubnetFor(1);
    }
  }

  lemma TwoIndices(l: Layout)
    requires l.Accepted() && l.MaxIndex() > 0
    ensures l.MaxIndex() >= 2
  {
    var half := Pow2(l.subnetBits - l.base.bits - 1);
    assert Pow2(l.subnetBits - l.base.bits) == 2 * half;
    EvenRest(half);
  }

  lemma EvenRest(half: int)
    ensures 2 * half % WORD != 1
  {
  }

  // ---- parsed networks --------------------------------------------------

  /** What parsing a CIDR text yields; `mapped` is the IPv4 address that an
      IPv4-mapped IPv6 address stands for. */
  datatype Cidr = V4(address: int, bits: nat) | V6(mapped: Option<int>, bits: nat) {
    predicate WellFormed() {
      match this
      case V4(address, bits) => Address(address) && bits <= 32
      case V6(mapped, bits) => bits <= 128 && (mapped.Some? ==> Address(mapped.value))
    }

    /** Masked to 96 bits or more, a mapped address still stands for an IPv4 one. */
    predicate StaysMapped() {
      V6? && mapped.Some? && bits >= 96
    }
  }

  /** The base network of a parsed CIDR: masked, and address 0 where the address is
      not an IPv4 one. */
  function Base(cidr: Cidr): (net: Net)
    requires cidr.WellFormed()
    ensures net.bits == cidr.bits && Address(net.ip)
    ensures net.bits <= 32 ==> net.ip % Pow2(32 - net.bits) == 0
  {
    if cidr.V4? then Masked(cidr.address, cidr.bits)
    else if cidr.StaysMapped() then Net(Masked(cidr.mapped.value, cidr.bits - 96).ip, cidr.bits)
    else
      ZeroAligned(cidr.bits);
      Net(0, cidr.bits)
  }

  lemma ZeroAligned(bits: nat)
    ensures bits <= 32 ==> 0 % Pow2(32 - bits) == 0
  {
  }

  function Masked(address: int, bits: nat): (net: Net)
    requires Address(address) && bits <= 32
    ensures net.bits == bits && Contains(net, address)
    ensures Address(net.ip) && net.ip % Pow2(32 - bits) == 0
  {
    var size := Pow2(32 - bits);
    Mask(address, size);
    Net(address - address % size, bits)
  }

  lemma Mask(address: int, size: int)
    requires Address(address) && size >= 1
    ensures var ip := address - address % size;
      0 <= ip <= address && ip % size == 0 && ip / size == address / size
  {
    var q := address / size;
    assert address == q * size + address % size;
    DivUnique(address - address % size, size, q, 0);
    MulLe(0, q, size);
  }
}
