/**
  Guest addresses of VMs (internal/vm/network.go): a 32-bit counter that is only
  ever incremented, and a table of the addresses in use.  The commands that
  create, attach and raise a TAP device each succeed or fail.
*/
module VmNetwork {
  import opened SubnetLayout
  import opened Wrappers

  /** The outcomes of the three commands on the TAP device. */
  datatype TapCommands = TapCommands(add: bool, attach: bool, up: bool) {
    predicate Succeed() {
      add && attach && up
    }
  }

  datatype NetState = NetState(leases: map<nat, int>, nextIP: int)

  /** What an IPv6 subnet amounts to: address 0, and no guest address in it. */
  const NO_ADDRESSES := Net(0, 33)

  predicate LegalSubnet(subnet: Net) {
    || subnet == NO_ADDRESSES
    || (subnet.bits <= 32 && Address(subnet.ip) && subnet.ip % Pow2(32 - subnet.bits) == 0)
  }

  predicate InSubnet(subnet: Net, ip: int) {
    subnet.bits <= 32 && Contains(subnet, ip)
  }

  /** The subnet of a parsed CIDR; one that stays IPv4-mapped works as IPv4. */
  function GuestSubnet(cidr: Cidr): (subnet: Net)
    requires cidr.WellFormed()
    ensures LegalSubnet(subnet)
  {
    match cidr
    case V4(address, bits) => Masked(address, bits)
    case V6(_, bits) => if cidr.StaysMapped() && bits <= 128 then Masked(cidr.mapped.value, bits - 96) else NO_ADDRESSES
  }

  /** The last byte plus one, without a carry into the others. */
  function Gateway(subnet: Net): int {
    subnet.ip - subnet.ip % 256 + (subnet.ip % 256 + 1) % 256
  }

  function FirstGuest(subnet: Net): int {
    (Gateway(subnet) + 1) % WORD
  }

  function Fresh(subnet: Net): NetState {
    NetState(map[], FirstGuest(subnet))
  }

  /** The counter moves on even when the allocation fails. */
  function AfterAllocate(subnet: Net, s: NetState, vm: nat, tap: TapCommands): (NetState, Option<int>)
    requires LegalSubnet(subnet)
  {
    var next := (s.nextIP + 1) % WORD;
    if InSubnet(subnet, s.nextIP) && tap.Succeed()
    then (NetState(s.leases[vm := s.nextIP], next), Some(s.nextIP))
    else (NetState(s.leases, next), None)
  }

  function AfterRelease(s: NetState, vm: nat): NetState {
    NetState(s.leases - {vm}, s.nextIP)
  }

  class NetworkManager {
    const subnet: Net
    /** The source's table `allocated`. */
    var leases: map<nat, int>
    var nextIP: int

    predicate Valid()
      reads this
    {
      LegalSubnet(subnet) && Address(nextIP)
    }

    function State(): NetState
      reads this
    {
      NetState(leases, nextIP)
    }

    constructor (cidr: Cidr)
      requires cidr.WellFormed()
      ensures Valid() && subnet == GuestSubnet(cidr) && State() == Fresh(subnet)
    {
      subnet := GuestSubnet(cidr);
      leases := map[];
      nextIP := FirstGuest(GuestSubnet(cidr));
    }

    /** NewNetworkManager: `cidr` is None when the text does not parse, and null
        stands for the error. */
    static method Create(cidr: Option<Cidr>) returns (n: NetworkManager?)
      requires cidr.Some? ==> cidr.value.WellFormed()
      ensures n == null <==> cidr.None?
      ensures n != null ==> fresh(n) && n.Valid() && n.subnet == GuestSubnet(cidr.value) && n.State() == Fresh(n.subnet)
    {
      if cidr == None {
        return null;
      }
      n := new NetworkManager(cidr.value);
    }

    method AllocateNetwork(vm: nat, tap: TapCommands) returns (guestIP: Option<int>)
      requires Valid()
      modifies this
      ensures Valid()
      ensures (State(), guestIP) == AfterAllocate(subnet, old(State()), vm, tap)
    {
      var ip := nextIP;
      nextIP := (nextIP + 1) % WORD;
      if !InSubnet(subnet, ip) {
        return None;
      }
      if !tap.add {
        return None;
      }
      if !tap.attach {
        return None;
      }
      if !tap.up {
        return None;
      }
      leases := leases[vm := ip];
      return Some(ip);
    }

    method ReleaseNetwork(vm: nat)
      modifies this
      ensures State() == AfterRelease(old(State()), vm)
    {
      leases := leases - {vm};
    }
  }

  // ---- runs -------------------------------------------------------------

  datatype Op = Allocate(vm: nat, tap: TapCommands) | Release(vm: nat)

  function Apply(subnet: Net, s: NetState, op: Op): NetState
    requires LegalSubnet(subnet)
  {
    match op
    case Allocate(vm, tap) => AfterAllocate(subnet, s, vm, tap).0
    case Release(vm) => AfterRelease(s, vm)
  }

  function Run(subnet: Net, s: NetState, ops: seq<Op>): NetState
    requires LegalSubnet(subnet)
    decreases |ops|
  {
    if ops == [] then s else Run(subnet, Apply(subnet, s, ops[0]), ops[1..])
  }

  function Attempts(ops: seq<Op>): nat {
    if ops == [] then 0 else (if ops[0].Allocate? then 1 else 0) + Attempts(ops[1..])
  }

  /** How many attempts before the one that reached this address. */
  function Age(subnet: Net, ip: int): int {
    (ip - FirstGuest(subnet)) % WORD
  }

  /** The address that attempt number `k` reaches. */
  function Reached(subnet: Net, k: nat): (ip: int)
    ensures Address(ip)
  {
    (FirstGuest(subnet) + k) % WORD
  }

  /** An address reached by one of the first `calls` attempts. */
  predicate Old(subnet: Net, ip: int, calls: nat) {
    Address(ip) && Age(subnet, ip) < calls
  }

  /** After `calls` attempts: where the counter stands, and leases handed out by
      different attempts before it. */
  predicate Counted(subnet: Net, s: NetState, calls: nat) {
    && s.nextIP == Reached(subnet, calls)
    && (forall v :: v in s.leases ==> Old(subnet, s.leases[v], calls))
    && (forall v, w :: v in s.leases && w in s.leases && v != w ==> s.leases[v] != s.leases[w])
  }

  /** Before the counter comes round, what attempt number `k` reaches is new. */
  lemma ReachedIsNew(subnet: Net, k: nat)
    requires k < WORD
    ensures Old(subnet, Reached(subnet, k), k + 1) && !Old(subnet, Reached(subnet, k), k)
  {
    var first := FirstGuest(subnet);
    WrappedBelow(first + k);
    assert 0 <= first < WORD;
    if first + k >= WORD {
      WrappedBack(k);
    }
  }

  lemma WrappedBelow(x: int)
    requires 0 <= x < 2 * WORD
    ensures x % WORD == if x < WORD then x else x - WORD
  {
  }

  lemma WrappedBack(k: int)
    requires 0 <= k < WORD
    ensures (k - WORD) % WORD == k
  {
  }

  lemma ReachedNext(subnet: Net, k: nat)
    ensures (Reached(subnet, k) + 1) % WORD == Reached(subnet, k + 1)
  {
  }

  lemma Older(subnet: Net, ip: int, calls: nat)
    requires Old(subnet, ip, calls)
    ensures Old(subnet, ip, calls + 1)
  {
  }

  lemma LeaseCounted(subnet: Net, s: NetState, t: NetState, vm: nat, calls: nat)
    requires Counted(subnet, s, calls) && calls < WORD
    requires t.nextIP == Reached(subnet, calls + 1)
    requires t.leases == s.leases || t.leases == s.leases[vm := s.nextIP]
    ensures Counted(subnet, t, calls + 1)
  {
    ReachedIsNew(subnet, calls);
    forall v | v in t.leases
      ensures Old(subnet, t.leases[v], calls + 1)
    {
      if t.leases[v] != s.nextIP {
        Older(subnet, s.leases[v], calls);
      }
    }
  }

  lemma StepCounted(subnet: Net, s: NetState, op: Op, calls: nat)
    requires LegalSubnet(subnet) && Counted(subnet, s, calls) && calls < WORD
    ensures Counted(subnet, Apply(subnet, s, op), calls + (if op.Allocate? then 1 else 0))
  {
    if op.Allocate? {
      ReachedNext(subnet, calls);
      LeaseCounted(subnet, s, Apply(subnet, s, op), op.vm, calls);
    }
  }

  lemma {:induction false} RunCounted(subnet: Net, s: NetState, ops: seq<Op>, calls: nat)
    requires LegalSubnet(subnet) && Counted(subnet, s, calls) && calls + Attempts(ops) < WORD
    ensures Counted(subnet, Run(subnet, s, ops), calls + Attempts(ops))
    decreases |ops|
  {
    if ops != [] {
      StepCounted(subnet, s, ops[0], calls);
      RunCounted(subnet, Apply(subnet, s, ops[0]), ops[1..], calls + (if ops[0].Allocate? then 1 else 0));
    }
  }

  lemma FreshCounted(subnet: Net)
    requires LegalSubnet(subnet)
    ensures Counted(subnet, Fresh(subnet), 0)
  {
  }

  lemma CountsFromFresh(subnet: Net, ops: seq<Op>)
    requires LegalSubnet(subnet) && Attempts(ops) < WORD
    ensures Counted(subnet, Run(subnet, Fresh(subnet), ops), Attempts(ops))
  {
    FreshCounted(subnet);
    RunCounted(subnet, Fresh(subnet), ops, 0);
  }

  /** With fewer than 2^32 attempts, no two VMs ever hold the same guest address. */
  lemma GuestAddressesDistinct(subnet: Net, ops: seq<Op>, v: nat, w: nat)
    requires LegalSubnet(subnet) && Attempts(ops) < WORD
    requires var s := Run(subnet, Fresh(subnet), ops); v in s.leases && w in s.leases && v != w
    ensures var s := Run(subnet, Fresh(subnet), ops); s.leases[v] != s.leases[w]
  {
    CountsFromFresh(subnet, ops);
  }

  lemma AlignedToFour(subnet: Net)
    requires LegalSubnet(subnet) && subnet.bits <= 30
    ensures subnet.ip % 4 == 0
    ensures subnet.ip + Pow2(32 - subnet.bits) <= WORD
  {
    Pow2Word();
    Pow2Add(subnet.bits, 32 - subnet.bits);
    AlignedFits(subnet.ip, Pow2(32 - subnet.bits), Pow2(subnet.bits));
    Pow2Add(2, 30 - subnet.bits);
    assert Pow2(2) == 4;
    AlignedFiner(subnet.ip, Pow2(30 - subnet.bits), 4, Pow2(32 - subnet.bits));
  }

  lemma LastByte(a: int)
    requires a % 4 == 0
    ensures a % 256 <= 252 && (a % 256 + 1) % 256 == a % 256 + 1
  {
    var last := a % 256;
    assert last % 4 == 0;
  }

  lemma RoomForTwo(a: int)
    requires Address(a) && a % 4 == 0
    ensures a + 2 < WORD && (a + 2) % WORD == a + 2
  {
  }

  lemma FirstGuestIs(subnet: Net)
    requires Address(subnet.ip) && subnet.ip % 4 == 0
    ensures FirstGuest(subnet) == subnet.ip + 2
  {
    LastByte(subnet.ip);
    RoomForTwo(subnet.ip);
    assert Gateway(subnet) == subnet.ip + 1;
  }

  /** The address that attempt number `k` reaches lies in the subnet or beyond it. */
  lemma AddressOfAttempt(subnet: Net, k: nat)
    requires LegalSubnet(subnet) && subnet.bits <= 30 && k < WORD - 2
    ensures InSubnet(subnet, Reached(subnet, k)) <==> k < Pow2(32 - subnet.bits) - 2
  {
    AlignedToFour(subnet);
    FirstGuestIs(subnet);
    WrappedBelow(subnet.ip + 2 + k);
    SameBlock(subnet.ip, Reached(subnet, k), Pow2(32 - subnet.bits));
  }

  lemma Served(subnet: Net, s: NetState, k: nat, vm: nat, tap: TapCommands)
    requires LegalSubnet(subnet) && subnet.bits <= 30 && k < WORD - 2 && s.nextIP == Reached(subnet, k)
    ensures AfterAllocate(subnet, s, vm, tap).1
      == if tap.Succeed() && k < Pow2(32 - subnet.bits) - 2 then Some(Reached(subnet, k)) else None
  {
    AddressOfAttempt(subnet, k);
  }

  lemma ReachedInside(subnet: Net, k: nat)
    requires LegalSubnet(subnet) && subnet.bits <= 30 && k < Pow2(32 - subnet.bits) - 2
    ensures Reached(subnet, k) == subnet.ip + 2 + k
  {
    AlignedToFour(subnet);
    FirstGuestIs(subnet);
    NoWrap(subnet.ip + 2 + k);
  }

  /** Releasing never makes room: attempt number `k` gets an address exactly when
      it is among the first 2^(32-bits) - 2, whatever has been released, until
      the counter has gone all the way round; it gets the address `k` after the
      first. */
  lemma OnlyFirstAttemptsServed(subnet: Net, ops: seq<Op>, vm: nat, tap: TapCommands)
    requires LegalSubnet(subnet) && subnet.bits <= 30 && Attempts(ops) < WORD - 2
    ensures AfterAllocate(subnet, Run(subnet, Fresh(subnet), ops), vm, tap).1
      == if tap.Succeed() && Attempts(ops) < Pow2(32 - subnet.bits) - 2 then Some(subnet.ip + 2 + Attempts(ops)) else None
  {
    var k := Attempts(ops);
    CountsFromFresh(subnet, ops);
    Served(subnet, Run(subnet, Fresh(subnet), ops), k, vm, tap);
    if k < Pow2(32 - subnet.bits) - 2 {
      ReachedInside(subnet, k);
    }
  }

  /** The last address of the subnet, to which it broadcasts. */
  function Broadcast(subnet: Net): int
    requires subnet.bits <= 32
  {
    subnet.ip + Pow2(32 - subnet.bits) - 1
  }

  /** In every run a VM is given the broadcast address exactly when its attempt is
      the last one that is served. */
  lemma BroadcastServedIff(subnet: Net, ops: seq<Op>, vm: nat, tap: TapCommands)
    requires LegalSubnet(subnet) && subnet.bits <= 30 && Attempts(ops) < WORD - 2
    ensures AfterAllocate(subnet, Run(subnet, Fresh(subnet), ops), vm, tap).1 == Some(Broadcast(subnet))
      <==> tap.Succeed() && Attempts(ops) == Pow2(32 - subnet.bits) - 3
  {
    OnlyFirstAttemptsServed(subnet, ops, vm, tap);
    AlignedToFour(subnet);
    AtLeastFour(32 - subnet.bits);
  }

  lemma AtLeastFour(n: nat)
    requires n >= 2
    ensures Pow2(n) >= 4
  {
    assert Pow2(n) == 2 * (2 * Pow2(n - 2));
  }

  /** An IPv6 subnet is accepted and serves no guest. */
  lemma NoAddressesServesNone(s: NetState, vm: nat, tap: TapCommands)
    ensures AfterAllocate(NO_ADDRESSES, s, vm, tap).1 == None
  {
  }
}
