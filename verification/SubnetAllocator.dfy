/**
  Allocation of subnets to nodes (internal/mesh/allocator.go): a table from
  nodes to subnets and a table from subnet indices to nodes, first-fit search,
  release, export and import.
*/
module SubnetAllocator {
  import opened SubnetLayout
  import opened Wrappers

  datatype State = State(subnets: map<string, Net>, used: map<nat, string>)

  const EMPTY := State(map[], map[])

  /** A stored record; its CIDR text may not parse. */
  datatype Record = Record(nodeID: string, cidr: Option<Net>)

  // ---- one step ---------------------------------------------------------

  /** The first free index from `idx` on, or `max` when there is none. */
  function FirstFree(used: map<nat, string>, max: nat, idx: nat): (free: nat)
    requires idx <= max
    ensures idx <= free <= max
    ensures forall j :: idx <= j < free ==> j in used
    ensures free < max ==> free !in used
    decreases max - idx
  {
    if idx == max || idx !in used then idx else FirstFree(used, max, idx + 1)
  }

  function AfterAllocate(l: Layout, s: State, node: string): (State, Option<Net>)
    requires l.Accepted()
  {
    if node in s.subnets then (s, Some(s.subnets[node]))
    else
      var idx := FirstFree(s.used, l.MaxIndex(), 0);
      if idx == l.MaxIndex() then (s, None)
      else
        (State(s.subnets[node := l.SubnetFor(idx)], s.used[idx := node]), Some(l.SubnetFor(idx)))
  }

  function AfterRelease(l: Layout, s: State, node: string): State
    requires l.Accepted()
  {
    if node in s.subnets
    then State(s.subnets - {node}, s.used - {l.IndexOf(s.subnets[node])})
    else s
  }

  function AfterImport(l: Layout, s: State, records: seq<Record>): (State, bool)
    requires l.Accepted()
    decreases |records|
  {
    if records == [] then (s, true)
    else
      match records[0].cidr
      case None => (s, false)
      case Some(net) => AfterImport(l, Entered(l, s, records[0].nodeID, net), records[1..])
  }

  /** A record enters both tables, whatever they hold. */
  function Entered(l: Layout, s: State, node: string, net: Net): State
    requires l.Accepted()
  {
    State(s.subnets[node := net], s.used[l.IndexOf(net) := node])
  }

  /** What parsing the text of a subnet yields: a prefix beyond 32 bits has no
      mask, and its text does not parse. */
  function Reparsed(net: Net): Option<Net> {
    if net.bits <= 32 then Some(net) else None
  }

  // ---- the invariant ----------------------------------------------------

  /** The two tables are inverse of each other and hold blocks of the layout. */
  ghost predicate Inverse(l: Layout, s: State)
    requires l.Legal()
  {
    && (forall n :: n in s.subnets ==>
          l.IndexOf(s.subnets[n]) in s.used && s.used[l.IndexOf(s.subnets[n])] == n)
    && (forall i :: i in s.used ==>
          0 <= i < l.MaxIndex() && s.used[i] in s.subnets && s.subnets[s.used[i]] == l.SubnetFor(i))
  }

  // ---- the allocator itself --------------------------------------------

  /** 100.64.0.0/10 in /24 subnets. */
  const CARRIER_GRADE_NAT := Layout(Net(0x6440_0000, 10), 24)

  /** 64 times 256 subnets. */
  lemma CarrierGradeNAT()
    ensures CARRIER_GRADE_NAT.Legal() && CARRIER_GRADE_NAT.HasRoom() && CARRIER_GRADE_NAT.MaxIndex() == 16384
  {
    assert Pow2(7) == 128;
    Pow2Add(7, 7);
    Pow2Add(14, 8);
    assert Pow2(8) == 256;
  }

  class Allocator {
    const layout: Layout
    var subnets: map<string, Net>
    var used: map<nat, string>

    predicate Valid()
      reads this
    {
      layout.Accepted()
    }

    function Contents(): State
      reads this
    {
      State(subnets, used)
    }

    constructor (layout: Layout)
      requires layout.Accepted()
      ensures Valid() && this.layout == layout && Contents() == EMPTY
    {
      this.layout := layout;
      subnets := map[];
      used := map[];
    }

    /** NewAllocator. */
    constructor Default()
      ensures Valid() && layout == CARRIER_GRADE_NAT && Contents() == EMPTY
      ensures layout.Legal() && layout.MaxIndex() == 16384
    {
      layout := CARRIER_GRADE_NAT;
      subnets := map[];
      used := map[];
      new;
      CarrierGradeNAT();
    }

    /** NewAllocatorCustom: `cidr` is None when the text does not parse, and null
        stands for the error. */
    static method Custom(cidr: Option<Cidr>, subnetBits: int) returns (a: Allocator?)
      requires cidr.Some? ==> cidr.value.WellFormed()
      ensures a == null <==> cidr.None? || subnetBits <= cidr.value.bits
      ensures a != null ==> fresh(a) && a.Valid() && a.Contents() == EMPTY
      ensures a != null ==> a.layout == Layout(Base(cidr.value), subnetBits)
    {
      if cidr == None {
        return null;
      }
      var base := Base(cidr.value);
      if subnetBits <= base.bits {
        return null;
      }
      a := new Allocator(Layout(base, subnetBits));
    }

    method Allocate(node: string) returns (subnet: Option<Net>)
      requires Valid()
      modifies this
      ensures (Contents(), subnet) == AfterAllocate(layout, old(Contents()), node)
    {
      if node in subnets {
        return Some(subnets[node]);
      }
      var maxIndex := layout.MaxIndex();
      var idx := 0;
      while idx < maxIndex
        invariant 0 <= idx <= maxIndex
        invariant Contents() == old(Contents())
        invariant FirstFree(used, maxIndex, 0) == FirstFree(used, maxIndex, idx)
      {
        if idx !in used {
          var found := layout.SubnetFor(idx);
          subnets := subnets[node := found];
          used := used[idx := node];
          return Some(found);
        }
        idx := idx + 1;
      }
      return None;
    }

    /** Ranges over the index table in no particular order and drops the first
        entry of the node; consistent tables have only one. */
    method Release(node: string) returns (ok: bool)
      modifies this
      ensures ok == (node in old(subnets))
      ensures !ok ==> Contents() == old(Contents())
      ensures ok ==> Released(old(Contents()), Contents(), node)
    {
      if node !in subnets {
        return false;
      }
      var todo := used.Keys;
      while todo != {}
        invariant todo <= used.Keys
        invariant Contents() == old(Contents())
        invariant forall i :: i in used && used[i] == node ==> i in todo
        decreases |todo|
      {
        var idx :| idx in todo;
        if used[idx] == node {
          used := used - {idx};
          subnets := subnets - {node};
          assert Dropped(old(used), used, node, idx);
          return true;
        }
        todo := todo - {idx};
      }
      subnets := subnets - {node};
      return true;
    }

    /** On consistent tables neither count has wrapped. */
    method FreeCount() returns (n: int)
      requires Valid()
      ensures n == (layout.MaxIndex() - |used| % WORD) % WORD
      ensures layout.Legal() && Sane(layout, Contents()) ==> n == layout.MaxIndex() - |subnets| >= 0
    {
      n := (layout.MaxIndex() - |used| % WORD) % WORD;
      if layout.Legal() && Sane(layout, Contents()) {
        CountsOf(layout, Contents());
      }
    }

    method AllocatedCount() returns (n: int)
      requires Valid()
      ensures n == |used| % WORD
      ensures layout.Legal() && Sane(layout, Contents()) ==> n == |subnets|
    {
      n := |used| % WORD;
      if layout.Legal() && Sane(layout, Contents()) {
        CountsOf(layout, Contents());
      }
    }

    /** One record a node, in the order in which the range yields the nodes. */
    method ExportAllocations() returns (records: seq<Record>)
      ensures IsExportOf(records, Contents())
    {
      records := [];
      var todo := subnets.Keys;
      while todo != {}
        invariant todo <= subnets.Keys
        invariant forall r :: r in records <==>
          r.nodeID in subnets && r.nodeID !in todo && r.cidr == Reparsed(subnets[r.nodeID])
        invariant forall i, j :: 0 <= i < j < |records| ==> records[i].nodeID != records[j].nodeID
        decreases |todo|
      {
        var node :| node in todo;
        records := records + [Record(node, Reparsed(subnets[node]))];
        todo := todo - {node};
      }
    }

    method ImportAllocations(records: seq<Record>) returns (ok: bool)
      requires Valid()
      modifies this
      ensures (Contents(), ok) == AfterImport(layout, old(Contents()), records)
    {
      var i := 0;
      while i < |records|
        invariant 0 <= i <= |records|
        invariant AfterImport(layout, old(Contents()), records) == AfterImport(layout, Contents(), records[i..])
      {
        if records[i].cidr == None {
          return false;
        }
        var net := records[i].cidr.value;
        var idx := layout.IndexOf(net);
        subnets := subnets[records[i].nodeID := net];
        used := used[idx := records[i].nodeID];
        i := i + 1;
      }
      return true;
    }
  }

  predicate Dropped(used: map<nat, string>, used': map<nat, string>, node: string, idx: nat) {
    idx in used && used[idx] == node && used' == used - {idx}
  }

  /** The node's subnet is gone, and one of its indices if it had any. */
  ghost predicate Released(s: State, s': State, node: string) {
    && s'.subnets == s.subnets - {node}
    && ((s'.used == s.used && forall i :: i in s.used ==> s.used[i] != node)
        || exists idx :: Dropped(s.used, s'.used, node, idx))
  }

  /** On consistent tables the order of the range does not matter. */
  lemma ReleaseIsUnique(l: Layout, s: State, s': State, node: string)
    requires l.Legal() && Inverse(l, s) && node in s.subnets && Released(s, s', node)
    ensures s' == AfterRelease(l, s, node)
  {
    var mine := l.IndexOf(s.subnets[node]);
    assert s.used[mine] == node;
    var idx: nat :| Dropped(s.used, s'.used, node, idx);
    OneIndexPerNode(l, s, node, idx);
  }

  /** One record for each node, with its subnet, in any order. */
  ghost predicate IsExportOf(records: seq<Record>, s: State) {
    Lists(records, s) && Distinct(records)
  }

  ghost predicate Distinct(records: seq<Record>) {
    forall i, j :: 0 <= i < j < |records| ==> records[i].nodeID != records[j].nodeID
  }

  lemma OneIndexPerNode(l: Layout, s: State, node: string, idx: nat)
    requires l.Legal() && Inverse(l, s) && idx in s.used && s.used[idx] == node
    ensures idx == l.IndexOf(s.subnets[node])
  {
    BlockAt(l, idx);
  }

  // ---- runs -------------------------------------------------------------

  datatype Op = Allocate(node: string) | Release(node: string)

  function Apply(l: Layout, s: State, op: Op): State
    requires l.Accepted()
  {
    match op
    case Allocate(n) => AfterAllocate(l, s, n).0
    case Release(n) => AfterRelease(l, s, n)
  }

  function Run(l: Layout, s: State, ops: seq<Op>): State
    requires l.Accepted()
    decreases |ops|
  {
    if ops == [] then s else Run(l, Apply(l, s, ops[0]), ops[1..])
  }

  /** Consistent tables of the same size. */
  ghost predicate Sane(l: Layout, s: State)
    requires l.Legal()
  {
    Inverse(l, s) && |s.used| == |s.subnets|
  }

  lemma AllocateKeeps(l: Layout, s: State, node: string)
    requires l.Legal() && Sane(l, s)
    ensures Sane(l, AfterAllocate(l, s, node).0)
  {
    var idx := FirstFree(s.used, l.MaxIndex(), 0);
    if node !in s.subnets && idx < l.MaxIndex() {
      BlockAt(l, idx);
    }
  }

  lemma ReleaseKeeps(l: Layout, s: State, node: string)
    requires l.Legal() && Sane(l, s)
    ensures Sane(l, AfterRelease(l, s, node))
  {
    if node in s.subnets {
      var mine := l.IndexOf(s.subnets[node]);
      var after := AfterRelease(l, s, node);
      forall i | i in after.used
        ensures after.used[i] in after.subnets
      {
        if s.used[i] == node {
          OneIndexPerNode(l, s, node, i);
        }
      }
      assert after.used.Keys == s.used.Keys - {mine} && after.subnets.Keys == s.subnets.Keys - {node};
    }
  }

  lemma {:induction false} RunKeeps(l: Layout, s: State, ops: seq<Op>)
    requires l.Legal() && Sane(l, s)
    ensures Sane(l, Run(l, s, ops))
    decreases |ops|
  {
    if ops != [] {
      match ops[0] {
        case Allocate(n) => AllocateKeeps(l, s, n);
        case Release(n) => ReleaseKeeps(l, s, n);
      }
      RunKeeps(l, Apply(l, s, ops[0]), ops[1..]);
    }
  }

  /** After any run the live subnets lie inside the base network and no address
      belongs to the subnets of two nodes. */
  lemma LiveSubnetsDisjoint(l: Layout, ops: seq<Op>, n: string, m: string, a: int)
    requires l.Legal()
    requires var s := Run(l, EMPTY, ops); n in s.subnets && m in s.subnets
    ensures var s := Run(l, EMPTY, ops);
      && s.subnets[n].bits == s.subnets[m].bits == l.subnetBits
      && (Contains(s.subnets[n], a) ==> Contains(l.base, a))
      && (n != m ==> !(Contains(s.subnets[n], a) && Contains(s.subnets[m], a)))
  {
    RunKeeps(l, EMPTY, ops);
    var s := Run(l, EMPTY, ops);
    var i, j := l.IndexOf(s.subnets[n]), l.IndexOf(s.subnets[m]);
    assert s.subnets[n] == l.SubnetFor(i) && s.subnets[m] == l.SubnetFor(j);
    if Contains(s.subnets[n], a) {
      BlockInsideBase(l, i, a);
      if Contains(s.subnets[m], a) {
        BlocksDisjoint(l, i, j, a);
      }
    }
  }

  function Upto(n: nat): (s: set<nat>)
    ensures forall i :: i in s <==> 0 <= i < n
    ensures |s| == n
  {
    if n == 0 then {} else Upto(n - 1) + {n - 1}
  }

  lemma SubsetSize<T>(a: set<T>, b: set<T>)
    requires a <= b
    ensures |a| <= |b|
  {
    if a != {} {
      var x :| x in a;
      SubsetSize(a - {x}, b - {x});
    }
  }

  lemma SubsetFull<T>(a: set<T>, b: set<T>)
    requires a <= b && |a| == |b|
    ensures a == b
  {
    if b - a != {} {
      var x :| x in b - a;
      SubsetSize(a, b - {x});
    }
  }

  lemma UsedFits(l: Layout, s: State)
    requires l.Legal() && Sane(l, s)
    ensures |s.used| <= l.MaxIndex() < WORD
  {
    SubsetSize(s.used.Keys, Upto(l.MaxIndex()));
  }

  /** The allocated and the free count, computed in 32 bits, are the true numbers
      and add up to the number of subnets. */
  predicate CountsRight(l: Layout, s: State)
    requires l.Legal()
  {
    var taken := |s.used| % WORD;
    taken == |s.subnets| && (l.MaxIndex() - taken) % WORD == l.MaxIndex() - |s.subnets| >= 0
  }

  lemma CountsOf(l: Layout, s: State)
    requires l.Legal() && Sane(l, s)
    ensures CountsRight(l, s)
  {
    UsedFits(l, s);
    NoWrap(|s.used|);
    NoWrap(l.MaxIndex() - |s.used|);
  }

  lemma CountsAddUp(l: Layout, ops: seq<Op>)
    requires l.Legal()
    ensures CountsRight(l, Run(l, EMPTY, ops))
  {
    RunKeeps(l, EMPTY, ops);
    CountsOf(l, Run(l, EMPTY, ops));
  }

  /** A node without a subnet is refused exactly when every index is taken. */
  lemma RefusedIffFull(l: Layout, ops: seq<Op>, node: string)
    requires l.Legal() && node !in Run(l, EMPTY, ops).subnets
    ensures var s := Run(l, EMPTY, ops);
      AfterAllocate(l, s, node).1 == None <==> |s.subnets| == l.MaxIndex()
  {
    RunKeeps(l, EMPTY, ops);
    var s := Run(l, EMPTY, ops);
    UsedFits(l, s);
    var free := FirstFree(s.used, l.MaxIndex(), 0);
    if free == l.MaxIndex() {
      assert s.used.Keys == Upto(l.MaxIndex());
    } else if |s.used| == l.MaxIndex() {
      SubsetFull(s.used.Keys, Upto(l.MaxIndex()));
    }
  }

  /** Never more than `k` nodes hold a subnet, before, between and after the operations. */
  predicate AtMostLive(l: Layout, s: State, ops: seq<Op>, k: nat)
    requires l.Legal()
    decreases |ops|
  {
    |s.subnets| <= k && (ops != [] ==> AtMostLive(l, Apply(l, s, ops[0]), ops[1..], k))
  }

  /** The subnets returned by the allocations of a run, in order. */
  function HandedOut(l: Layout, s: State, ops: seq<Op>): seq<Net>
    requires l.Legal()
    decreases |ops|
  {
    if ops == [] then []
    else
      var rest := HandedOut(l, Apply(l, s, ops[0]), ops[1..]);
      if ops[0].Allocate? && AfterAllocate(l, s, ops[0].node).1.Some?
      then [AfterAllocate(l, s, ops[0].node).1.value] + rest
      else rest
  }

  lemma FirstFitIsLow(l: Layout, s: State, node: string, k: nat)
    requires l.Legal() && Sane(l, s) && |AfterAllocate(l, s, node).0.subnets| <= k
    requires forall i :: i in s.used ==> i < k
    ensures forall i :: i in AfterAllocate(l, s, node).0.used ==> i < k
  {
    var idx := FirstFree(s.used, l.MaxIndex(), 0);
    if node !in s.subnets && idx < l.MaxIndex() {
      SubsetSize(Upto(idx), s.used.Keys);
      assert |s.subnets[node := l.SubnetFor(idx)]| == |s.subnets| + 1;
    }
  }

  /** First fit keeps a high-water mark: with at most `k` nodes at once, only
      the first `k` subnets are ever handed out. */
  lemma {:induction false} HighWaterMark(l: Layout, s: State, ops: seq<Op>, k: nat)
    requires l.Legal() && Sane(l, s) && AtMostLive(l, s, ops, k)
    requires forall i :: i in s.used ==> i < k
    ensures forall net :: net in HandedOut(l, s, ops) ==> 0 <= l.IndexOf(net) < k && net == l.SubnetFor(l.IndexOf(net))
    decreases |ops|
  {
    if ops != [] {
      var next := Apply(l, s, ops[0]);
      match ops[0] {
        case Allocate(n) =>
          AllocateKeeps(l, s, n);
          FirstFitIsLow(l, s, n, k);
          assert AfterAllocate(l, s, n).1.Some? ==> next.subnets[n] == AfterAllocate(l, s, n).1.value;
        case Release(n) => ReleaseKeeps(l, s, n);
      }
      HighWaterMark(l, next, ops[1..], k);
    }
  }

  // ---- what an allocation returns ---------------------------------------

  /** An allocation returns the node's own entry, and changes nobody else's: a node
      that has a subnet gets it again, another one the first block that no node
      holds, and with no such block the tables stay as they are. */
  lemma AllocateReturnsEntry(l: Layout, ops: seq<Op>, node: string)
    requires l.Legal()
    ensures var s := Run(l, EMPTY, ops);
      var t := Run(l, EMPTY, ops + [Allocate(node)]);
      var answer := AfterAllocate(l, s, node).1;
      && t.subnets - {node} == s.subnets - {node}
      && (node in s.subnets ==> t == s && answer == Some(s.subnets[node]))
      && (answer.None? ==> t == s && node !in s.subnets && forall i :: 0 <= i < l.MaxIndex() ==> l.SubnetFor(i) in s.subnets.Values)
      && (answer.Some? ==> node in t.subnets && t.subnets[node] == answer.value)
      && (answer.Some? && node !in s.subnets ==>
            exists idx :: FirstUnheld(l, s, idx) && answer.value == l.SubnetFor(idx))
  {
    var s := Run(l, EMPTY, ops);
    RunKeeps(l, EMPTY, ops);
    RunAppend(l, EMPTY, ops, Allocate(node));
    if node !in s.subnets {
      FirstFreeIsUnheld(l, s);
    }
  }

  /** Block `idx` is held by no node, and every block before it by some node. */
  ghost predicate FirstUnheld(l: Layout, s: State, idx: int)
    requires l.Legal()
  {
    && 0 <= idx < l.MaxIndex() && l.SubnetFor(idx) !in s.subnets.Values
    && forall i :: 0 <= i < idx ==> l.SubnetFor(i) in s.subnets.Values
  }

  lemma FirstFreeIsUnheld(l: Layout, s: State)
    requires l.Legal() && Inverse(l, s)
    ensures var idx := FirstFree(s.used, l.MaxIndex(), 0);
      && (forall i :: 0 <= i < idx ==> l.SubnetFor(i) in s.subnets.Values)
      && (idx < l.MaxIndex() ==> FirstUnheld(l, s, idx))
  {
    var idx := FirstFree(s.used, l.MaxIndex(), 0);
    forall i | 0 <= i < idx
      ensures l.SubnetFor(i) in s.subnets.Values
    {
      assert s.subnets[s.used[i]] == l.SubnetFor(i);
    }
    if idx < l.MaxIndex() && l.SubnetFor(idx) in s.subnets.Values {
      var n :| n in s.subnets && s.subnets[n] == l.SubnetFor(idx);
      BlockAt(l, idx);
      assert false;
    }
  }

  lemma {:induction false} RunAppend(l: Layout, s: State, ops: seq<Op>, op: Op)
    requires l.Accepted()
    ensures Run(l, s, ops + [op]) == Apply(l, Run(l, s, ops), op)
    decreases |ops|
  {
    if ops == [] {
      assert (ops + [op])[1..] == [];
    } else {
      assert (ops + [op])[1..] == ops[1..] + [op];
      RunAppend(l, Apply(l, s, ops[0]), ops[1..], op);
    }
  }

  /** Releasing takes the node's entry and no other. */
  lemma ReleaseDropsEntry(l: Layout, ops: seq<Op>, node: string)
    requires l.Legal()
    ensures Run(l, EMPTY, ops + [Release(node)]).subnets == Run(l, EMPTY, ops).subnets - {node}
  {
    RunAppend(l, EMPTY, ops, Release(node));
    var s := Run(l, EMPTY, ops);
    if node !in s.subnets {
      assert s.subnets - {node} == s.subnets;
    }
  }

  /** What allocation number `i` of the run returned. */
  function Answer(l: Layout, ops: seq<Op>, i: nat): Option<Net>
    requires l.Accepted() && i < |ops| && ops[i].Allocate?
  {
    AfterAllocate(l, Run(l, EMPTY, ops[..i]), ops[i].node).1
  }

  /** Operation `i` was an allocation that returned `net`, and its node has not
      released it since. */
  predicate Holds(l: Layout, ops: seq<Op>, i: nat, net: Net)
    requires l.Accepted()
  {
    && i < |ops| && ops[i].Allocate? && Answer(l, ops, i) == Some(net)
    && forall j :: i < j < |ops| ==> ops[j] != Release(ops[i].node)
  }

  /** A node that holds a subnet keeps it through any operation but its release. */
  lemma EntryStands(l: Layout, ops: seq<Op>, op: Op, node: string)
    requires l.Legal() && node in Run(l, EMPTY, ops).subnets && op != Release(node)
    ensures var s, t := Run(l, EMPTY, ops), Run(l, EMPTY, ops + [op]);
      node in t.subnets && t.subnets[node] == s.subnets[node]
  {
    var s := Run(l, EMPTY, ops);
    RunAppend(l, EMPTY, ops, op);
    match op {
      case Allocate(n) => assert n == node ==> Apply(l, s, op) == s;
      case Release(n) =>
    }
  }

  lemma {:induction false} AnswerStands(l: Layout, ops: seq<Op>, i: nat, net: Net)
    requires l.Legal() && Holds(l, ops, i, net)
    ensures ops[i].node in Run(l, EMPTY, ops).subnets && Run(l, EMPTY, ops).subnets[ops[i].node] == net
    decreases |ops|
  {
    var last, before := ops[|ops| - 1], ops[..|ops| - 1];
    assert ops == before + [last];
    if i == |ops| - 1 {
      assert ops[..i] == before;
      AllocateReturnsEntry(l, before, last.node);
    } else {
      assert before[..i] == ops[..i];
      AnswerStands(l, before, i, net);
      assert last != Release(ops[i].node);
      EntryStands(l, before, last, ops[i].node);
    }
  }

  /** Subnets returned to different nodes that both still hold them share no address. */
  lemma AnswersDisjoint(l: Layout, ops: seq<Op>, i: nat, j: nat, x: Net, y: Net, a: int)
    requires l.Legal() && Holds(l, ops, i, x) && Holds(l, ops, j, y) && ops[i].node != ops[j].node
    ensures x.bits == y.bits == l.subnetBits && !(Contains(x, a) && Contains(y, a))
    ensures Contains(x, a) ==> Contains(l.base, a)
  {
    AnswerStands(l, ops, i, x);
    AnswerStands(l, ops, j, y);
    LiveSubnetsDisjoint(l, ops, ops[i].node, ops[j].node, a);
  }

  // ---- export and import ------------------------------------------------

  /** The tables after importing some of the records of `s`. */
  ghost predicate PartOf(l: Layout, part: State, s: State, imported: seq<Record>)
    requires l.Legal()
  {
    && (forall n :: n in part.subnets ==> n in s.subnets && part.subnets[n] == s.subnets[n])
    && (forall i :: i in part.used ==> i in s.used && part.used[i] == s.used[i])
    && (forall r :: r in imported && r.cidr.Some? ==> r.nodeID in part.subnets && l.IndexOf(r.cidr.value) in part.used)
  }

  /** `records` holds one record for each node of `s` with its subnet. */
  ghost predicate Lists(records: seq<Record>, s: State) {
    forall r :: r in records <==> r.nodeID in s.subnets && r.cidr == Reparsed(s.subnets[r.nodeID])
  }

  lemma ImportDone(l: Layout, part: State, s: State, records: seq<Record>)
    requires l.Legal() && Inverse(l, s) && Lists(records, s) && PartOf(l, part, s, records)
    ensures part == s
  {
    forall n | n in s.subnets
      ensures n in part.subnets
    {
      assert Record(n, Some(s.subnets[n])) in records;
    }
    forall idx | idx in s.used
      ensures idx in part.used
    {
      assert Record(s.used[idx], Some(s.subnets[s.used[idx]])) in records;
      BlockAt(l, idx);
    }
    assert part.subnets == s.subnets;
    assert part.used == s.used;
  }

  lemma {:induction false} ImportCompletes(l: Layout, part: State, s: State, records: seq<Record>, i: nat)
    requires l.Legal() && Inverse(l, s) && i <= |records| && Lists(records, s)
    requires PartOf(l, part, s, records[..i])
    ensures AfterImport(l, part, records[i..]) == (s, true)
    decreases |records| - i
  {
    if i == |records| {
      assert records[..i] == records;
      ImportDone(l, part, s, records);
    } else {
      var r := records[i];
      assert r in records;
      var net := r.cidr.value;
      var next := State(part.subnets[r.nodeID := net], part.used[l.IndexOf(net) := r.nodeID]);
      assert records[..i + 1] == records[..i] + [r];
      assert PartOf(l, next, s, records[..i + 1]);
      ImportCompletes(l, next, s, records, i + 1);
      assert records[i..][1..] == records[i + 1..];
    }
  }

  /** Importing the export of any reachable allocator, in any order, into a fresh
      one with the same layout rebuilds both tables. */
  lemma ExportImport(l: Layout, ops: seq<Op>, records: seq<Record>)
    requires l.Legal() && IsExportOf(records, Run(l, EMPTY, ops))
    ensures AfterImport(l, EMPTY, records) == (Run(l, EMPTY, ops), true)
  {
    RunKeeps(l, EMPTY, ops);
    assert records[0..] == records;
    ImportCompletes(l, EMPTY, Run(l, EMPTY, ops), records, 0);
  }

  // ---- importing any records --------------------------------------------

  predicate Parsed(records: seq<Record>) {
    forall i :: 0 <= i < |records| ==> records[i].cidr.Some?
  }

  /** The records before the first one whose text does not parse. */
  function Readable(records: seq<Record>): (readable: seq<Record>)
    ensures Parsed(readable)
  {
    if records == [] || records[0].cidr.None? then [] else [records[0]] + Readable(records[1..])
  }

  lemma {:induction false} ImportStops(l: Layout, s: State, records: seq<Record>)
    requires l.Accepted()
    ensures AfterImport(l, s, records).0 == AfterImport(l, s, Readable(records)).0
    ensures AfterImport(l, s, records).1 <==> Readable(records) == records
    decreases |records|
  {
    if records != [] && records[0].cidr.Some? {
      var readable := Readable(records);
      assert readable[0] == records[0] && readable[1..] == Readable(records[1..]);
      ImportStops(l, Entered(l, s, records[0].nodeID, records[0].cidr.value), records[1..]);
      assert readable == records <==> readable[1..] == records[1..] by {
        assert records == [records[0]] + records[1..];
      }
    }
  }

  /** No later write has the same key. */
  predicate Last<K(==)>(keys: seq<K>, k: nat) {
    k < |keys| && forall j :: k < j < |keys| ==> keys[j] != keys[k]
  }

  /** The table holds the last write of each key, and nothing else. */
  ghost predicate HoldsLast<K, V>(m: map<K, V>, keys: seq<K>, values: seq<V>)
    requires |keys| == |values|
  {
    && (forall k: nat :: Last(keys, k) ==> keys[k] in m && m[keys[k]] == values[k])
    && (forall x :: x in m ==> exists k: nat :: Last(keys, k) && keys[k] == x)
  }

  lemma LastBefore<K>(keys: seq<K>, x: K, k: nat)
    requires k < |keys|
    ensures Last(keys + [x], k) <==> Last(keys, k) && keys[k] != x
  {
    var all := keys + [x];
    assert all[|keys|] == x && forall j :: 0 <= j < |keys| ==> all[j] == keys[j];
  }

  lemma OneMoreWrite<K, V>(m: map<K, V>, keys: seq<K>, values: seq<V>, x: K, v: V)
    requires |keys| == |values| && HoldsLast(m, keys, values)
    ensures HoldsLast(m[x := v], keys + [x], values + [v])
  {
    var all := keys + [x];
    forall k: nat | k < |keys|
      ensures Last(all, k) <==> Last(keys, k) && keys[k] != x
    {
      LastBefore(keys, x, k);
    }
    assert Last(all, |keys|);
    forall y | y in m && y != x
      ensures exists k: nat :: Last(all, k) && all[k] == y
    {
      var k: nat :| Last(keys, k) && keys[k] == y;
      assert Last(all, k) && all[k] == y;
    }
  }

  lemma LastWrite<K>(keys: seq<K>, k: nat) returns (n: nat)
    requires k < |keys|
    ensures k <= n && Last(keys, n) && keys[n] == keys[k]
  {
    n := k;
    var j := k + 1;
    while j < |keys|
      invariant k <= n < j <= |keys| && keys[n] == keys[k]
      invariant forall i :: n < i < j ==> keys[i] != keys[k]
    {
      if keys[j] == keys[k] {
        n := j;
      }
      j := j + 1;
    }
  }

  function NodesOf(records: seq<Record>): (nodes: seq<string>)
    ensures |nodes| == |records| && forall k :: 0 <= k < |nodes| ==> nodes[k] == records[k].nodeID
  {
    seq(|records|, k requires 0 <= k < |records| => records[k].nodeID)
  }

  function NetsOf(records: seq<Record>): (nets: seq<Net>)
    requires Parsed(records)
    ensures |nets| == |records| && forall k :: 0 <= k < |nets| ==> nets[k] == records[k].cidr.value
  {
    seq(|records|, k requires 0 <= k < |records| => records[k].cidr.value)
  }

  function IndicesOf(l: Layout, nets: seq<Net>): (indices: seq<nat>)
    requires l.Accepted()
    ensures |indices| == |nets| && forall k :: 0 <= k < |nets| ==> indices[k] == l.IndexOf(nets[k])
  {
    seq(|nets|, k requires 0 <= k < |nets| => l.IndexOf(nets[k]))
  }

  lemma {:induction false} ImportHoldsLast(l: Layout, s: State, nodes: seq<string>, nets: seq<Net>, rest: seq<Record>)
    requires l.Accepted() && Parsed(rest) && |nodes| == |nets|
    requires HoldsLast(s.subnets, nodes, nets) && HoldsLast(s.used, IndicesOf(l, nets), nodes)
    ensures var t := AfterImport(l, s, rest).0;
      && HoldsLast(t.subnets, nodes + NodesOf(rest), nets + NetsOf(rest))
      && HoldsLast(t.used, IndicesOf(l, nets + NetsOf(rest)), nodes + NodesOf(rest))
    decreases |rest|
  {
    if rest == [] {
      assert nodes + NodesOf(rest) == nodes && nets + NetsOf(rest) == nets;
    } else {
      var node, net := rest[0].nodeID, rest[0].cidr.value;
      OneMoreWrite(s.subnets, nodes, nets, node, net);
      OneMoreWrite(s.used, IndicesOf(l, nets), nodes, l.IndexOf(net), node);
      assert IndicesOf(l, nets + [net]) == IndicesOf(l, nets) + [l.IndexOf(net)];
      assert nodes + NodesOf(rest) == (nodes + [node]) + NodesOf(rest[1..]);
      assert nets + NetsOf(rest) == (nets + [net]) + NetsOf(rest[1..]);
      ImportHoldsLast(l, Entered(l, s, node, net), nodes + [node], nets + [net], rest[1..]);
    }
  }

  /** The last record of a node is the last of its index, and the other way round,
      and those records are blocks of the layout. */
  predicate SoundRecords(l: Layout, records: seq<Record>)
    requires l.Legal() && Parsed(records)
  {
    Sound(l, NodesOf(records), NetsOf(records))
  }

  predicate Sound(l: Layout, nodes: seq<string>, nets: seq<Net>)
    requires l.Legal() && |nodes| == |nets|
  {
    forall k: nat :: k < |nodes| ==> SoundAt(l, nodes, nets, IndicesOf(l, nets), k)
  }

  predicate SoundAt(l: Layout, nodes: seq<string>, nets: seq<Net>, indices: seq<nat>, k: nat)
    requires l.Legal() && k < |nodes| == |nets|
  {
    && (Last(nodes, k) <==> Last(indices, k))
    && (Last(nodes, k) ==> l.HasRoom() && l.IsBlock(nets[k]))
  }

  /** What import leaves in the tables. */
  ghost predicate Built(l: Layout, s: State, nodes: seq<string>, nets: seq<Net>, indices: seq<nat>)
    requires l.Accepted()
  {
    && |nodes| == |nets| && indices == IndicesOf(l, nets)
    && HoldsLast(s.subnets, nodes, nets) && HoldsLast(s.used, indices, nodes)
  }

  lemma SoundImport(l: Layout, s: State, nodes: seq<string>, nets: seq<Net>, indices: seq<nat>)
    requires l.Legal() && Built(l, s, nodes, nets, indices)
    requires forall k: nat :: k < |nodes| ==> SoundAt(l, nodes, nets, indices, k)
    ensures Inverse(l, s)
  {
    forall n | n in s.subnets
      ensures l.IndexOf(s.subnets[n]) in s.used && s.used[l.IndexOf(s.subnets[n])] == n
    {
      var k: nat :| Last(nodes, k) && nodes[k] == n;
      assert SoundAt(l, nodes, nets, indices, k);
    }
    forall i | i in s.used
      ensures 0 <= i < l.MaxIndex() && s.used[i] in s.subnets && s.subnets[s.used[i]] == l.SubnetFor(i)
    {
      var k: nat :| Last(indices, k) && indices[k] == i;
      assert SoundAt(l, nodes, nets, indices, k);
      IndexedBlock(l, nets[k]);
    }
  }

  /** On consistent tables the last record of a node is the last of its index. */
  lemma ConsistentImport(l: Layout, s: State, nodes: seq<string>, nets: seq<Net>, indices: seq<nat>, k: nat)
    requires l.Legal() && Inverse(l, s) && Built(l, s, nodes, nets, indices) && k < |nodes|
    ensures SoundAt(l, nodes, nets, indices, k)
  {
    var idx := indices[k];
    if Last(nodes, k) {
      var i := LastWrite(indices, k);
      assert s.subnets[nodes[k]] == nets[k] && s.used[idx] == nodes[k] == nodes[i];
      InverseBlock(l, s, idx);
    }
    if Last(indices, k) {
      var n := LastWrite(nodes, k);
      assert s.used[idx] == nodes[k] && s.subnets[nodes[k]] == nets[n];
      InverseBlock(l, s, idx);
    }
  }

  lemma InverseBlock(l: Layout, s: State, idx: nat)
    requires l.Legal() && Inverse(l, s) && idx in s.used
    ensures var net := s.subnets[s.used[idx]]; l.IsBlock(net) && l.IndexOf(net) == idx && l.HasRoom()
  {
    var count, size := Sizes(l);
    BlockAt(l, idx);
  }

  /** Import checks neither range nor duplicates.  Whatever records it is given,
      the tables it builds are consistent exactly when, among the records it can
      read, the last ones of the nodes are the last ones of the indices and are
      blocks of the layout. */
  lemma ImportConsistentIff(l: Layout, records: seq<Record>)
    requires l.Legal()
    ensures Inverse(l, AfterImport(l, EMPTY, records).0) <==> SoundRecords(l, Readable(records))
  {
    var readable := Readable(records);
    ImportStops(l, EMPTY, records);
    ImportBuilds(l, readable);
    var s := AfterImport(l, EMPTY, readable).0;
    var nodes, nets := NodesOf(readable), NetsOf(readable);
    var indices := IndicesOf(l, nets);
    if SoundRecords(l, readable) {
      SoundImport(l, s, nodes, nets, indices);
    }
    if Inverse(l, s) {
      forall k: nat | k < |nodes|
        ensures SoundAt(l, nodes, nets, indices, k)
      {
        ConsistentImport(l, s, nodes, nets, indices, k);
      }
    }
  }

  lemma ImportBuilds(l: Layout, records: seq<Record>)
    requires l.Accepted() && Parsed(records)
    ensures var nets := NetsOf(records);
      Built(l, AfterImport(l, EMPTY, records).0, NodesOf(records), nets, IndicesOf(l, nets))
  {
    ImportHoldsLast(l, EMPTY, [], [], records);
    assert [] + NodesOf(records) == NodesOf(records) && [] + NetsOf(records) == NetsOf(records);
  }

  // ---- prefixes beyond 32 bits ------------------------------------------

  /** In every run different nodes hold different subnets. */
  ghost predicate SubnetsDiffer(l: Layout)
    requires l.Accepted()
  {
    forall ops, n, m :: DifferAfter(l, ops, n, m)
  }

  predicate DifferAfter(l: Layout, ops: seq<Op>, n: string, m: string)
    requires l.Accepted()
  {
    var s := Run(l, EMPTY, ops);
    n in s.subnets && m in s.subnets && s.subnets[n] == s.subnets[m] ==> n == m
  }

  lemma {:induction false} NothingToAllocate(l: Layout, ops: seq<Op>)
    requires l.Accepted() && l.MaxIndex() == 0
    ensures Run(l, EMPTY, ops) == EMPTY
    decreases |ops|
  {
    if ops != [] {
      NothingToAllocate(l, ops[1..]);
    }
  }

  const TWO_NODES := [Allocate("a"), Allocate("b")]

  lemma TwoNodesShare(l: Layout)
    requires l.Accepted() && !l.Legal() && l.MaxIndex() > 0
    ensures !DifferAfter(l, TWO_NODES, "a", "b")
  {
    TwoIndices(l);
    var net := l.SubnetFor(0);
    assert net == l.SubnetFor(1);
    var s := State(map["a" := net], map[0 := "a"]);
    var t := State(map["a" := net, "b" := net], map[0 := "a", 1 := "b"]);
    assert Apply(l, EMPTY, TWO_NODES[0]) == s;
    assert FirstFree(s.used, l.MaxIndex(), 0) == FirstFree(s.used, l.MaxIndex(), 1) == 1;
    assert Apply(l, s, TWO_NODES[1]) == t;
    assert TWO_NODES[1..] == [Allocate("b")] && TWO_NODES[1..][1..] == [];
    assert Run(l, EMPTY, TWO_NODES) == Run(l, s, TWO_NODES[1..]) == Run(l, t, []) == t;
  }

  /** A subnet prefix beyond 32 bits is accepted, and then all nodes share one
      subnet, unless there is none to allocate. */
  lemma SubnetsDifferIff(l: Layout)
    requires l.Accepted()
    ensures SubnetsDiffer(l) <==> l.Legal() || l.MaxIndex() == 0
  {
    if l.Legal() || l.MaxIndex() == 0 {
      forall ops, n, m
        ensures DifferAfter(l, ops, n, m)
      {
        if l.Legal() {
          RunKeeps(l, EMPTY, ops);
        } else {
          NothingToAllocate(l, ops);
        }
      }
    } else {
      TwoNodesShare(l);
    }
  }
}
