/**
  Placement of a VM on a node (internal/scheduler/scheduler.go): a filter on
  hard constraints, then the highest weighted score.  Scores are reals; times
  are nanoseconds, and `now` is one reading for the whole placement.
*/
module Scheduler {
  import opened Wrappers

  datatype VMSpec = VMSpec(userID: string, vcpus: int, memBytes: int, diskBytes: int,
                           preferNodeIDs: seq<string>, minTrustLevel: int)

  /** `registeredAt` is None for the zero time. */
  datatype NodeStatus = NodeStatus(id: string, ready: bool, health: string, trustLevel: int,
                                   ramTotal: int, diskTotal: int, ramUsed: int, diskUsed: int, vmCount: int,
                                   registeredAt: Option<int>, userIDs: seq<string>, draining: bool)
  {
    function AvailableRAM(): int {
      if ramTotal - ramUsed < 0 then 0 else ramTotal - ramUsed
    }

    function AvailableDisk(): int {
      if diskTotal - diskUsed < 0 then 0 else diskTotal - diskUsed
    }
  }

  datatype Weights = Weights(binPacking: real, spread: real, locality: real, freshness: real, trust: real)

  const DAY := 24 * 3_600_000_000_000

  // ---- filter -----------------------------------------------------------

  /** The hard constraints; the number of virtual CPUs is not among them. */
  predicate Passes(n: NodeStatus, spec: VMSpec) {
    && n.ready && n.health == "healthy" && !n.draining
    && n.AvailableRAM() >= spec.memBytes
    && (spec.diskBytes > 0 ==> n.AvailableDisk() >= spec.diskBytes)
    && (spec.minTrustLevel > 0 ==> n.trustLevel >= spec.minTrustLevel)
  }

  function Filtered(nodes: seq<NodeStatus>, spec: VMSpec): (r: seq<NodeStatus>)
    ensures forall n :: n in r <==> n in nodes && Passes(n, spec)
  {
    if nodes == [] then []
    else
      var n := nodes[|nodes| - 1];
      var before := Filtered(nodes[..|nodes| - 1], spec);
      if Passes(n, spec) then before + [n] else before
  }

  method Filter(nodes: seq<NodeStatus>, spec: VMSpec) returns (result: seq<NodeStatus>)
    ensures result == Filtered(nodes, spec)
  {
    result := [];
    for i := 0 to |nodes|
      invariant result == Filtered(nodes[..i], spec)
    {
      var n := nodes[i];
      assert nodes[..i + 1][..i] == nodes[..i];
      if !n.ready { continue; }
      if n.health != "healthy" { continue; }
      if n.draining { continue; }
      if n.AvailableRAM() < spec.memBytes { continue; }
      if spec.diskBytes > 0 && n.AvailableDisk() < spec.diskBytes { continue; }
      if spec.minTrustLevel > 0 && n.trustLevel < spec.minTrustLevel { continue; }
      result := result + [n];
    }
    assert nodes[..|nodes|] == nodes;
  }

  // ---- score ------------------------------------------------------------

  function BinPackingScore(n: NodeStatus, spec: VMSpec): real {
    if n.ramTotal == 0 then 0.0
    else
      var used := (n.ramUsed + spec.memBytes) as real / n.ramTotal as real;
      if used > 1.0 then 1.0 else used
  }

  /** At least one, and at least the VM count of every candidate. */
  ghost predicate IsMaxVMs(candidates: seq<NodeStatus>, m: int) {
    && m >= 1 && (forall n :: n in candidates ==> n.vmCount <= m)
    && (m == 1 || exists n :: n in candidates && n.vmCount == m)
  }

  method MaxVMs(candidates: seq<NodeStatus>) returns (m: int)
    ensures IsMaxVMs(candidates, m)
  {
    m := 1;
    for i := 0 to |candidates|
      invariant IsMaxVMs(candidates[..i], m)
    {
      assert candidates[..i + 1] == candidates[..i] + [candidates[i]];
      if candidates[i].vmCount > m {
        m := candidates[i].vmCount;
        assert candidates[i] in candidates[..i + 1];
      }
    }
    assert candidates[..|candidates|] == candidates;
  }

  function SpreadScore(n: NodeStatus, maxVMs: int): real
    requires maxVMs >= 1
  {
    1.0 - n.vmCount as real / maxVMs as real
  }

  function LocalityScore(n: NodeStatus, spec: VMSpec): real {
    if spec.userID in n.userIDs then 1.0
    else if n.id in spec.preferNodeIDs then 0.8
    else 0.0
  }

  method ScoreLocality(n: NodeStatus, spec: VMSpec) returns (score: real)
    ensures score == LocalityScore(n, spec)
  {
    for i := 0 to |n.userIDs|
      invariant spec.userID !in n.userIDs[..i]
    {
      if n.userIDs[i] == spec.userID {
        return 1.0;
      }
    }
    for i := 0 to |spec.preferNodeIDs|
      invariant n.id !in spec.preferNodeIDs[..i]
    {
      if n.id == spec.preferNodeIDs[i] {
        return 0.8;
      }
    }
    return 0.0;
  }

  /** Registered now 1, a year ago or more 0, and in between in proportion. */
  function FreshnessScore(n: NodeStatus, now: int): real {
    match n.registeredAt
    case None => 0.5
    case Some(at) =>
      var score := 1.0 - (now - at) as real / DAY as real / 365.0;
      if score > 1.0 then 1.0 else if score < 0.0 then 0.0 else score
  }

  function TrustScore(n: NodeStatus): real {
    n.trustLevel as real / 100.0
  }

  function Weigh(weight: real, score: real): real {
    weight * score
  }

  /** The weighted sum, given the score for spread. */
  function Sum(w: Weights, n: NodeStatus, spec: VMSpec, spread: real, now: int): real {
    Weigh(w.binPacking, BinPackingScore(n, spec)) + Weigh(w.spread, spread)
      + Weigh(w.locality, LocalityScore(n, spec)) + Weigh(w.freshness, FreshnessScore(n, now))
      + Weigh(w.trust, TrustScore(n))
  }

  /** The score, given the largest VM count among the candidates. */
  function Score(w: Weights, n: NodeStatus, spec: VMSpec, maxVMs: int, now: int): real
    requires maxVMs >= 1
  {
    Sum(w, n, spec, SpreadScore(n, maxVMs), now)
  }

  /** Without candidates there is nothing to spread over. */
  method ScoreSpread(n: NodeStatus, candidates: seq<NodeStatus>) returns (score: real)
    ensures candidates == [] ==> score == 0.0
    ensures candidates != [] ==> forall m :: IsMaxVMs(candidates, m) ==> score == SpreadScore(n, m)
  {
    if |candidates| == 0 {
      return 0.0;
    }
    var maxVMs := MaxVMs(candidates);
    forall m | IsMaxVMs(candidates, m)
      ensures m == maxVMs
    {
      OneMaxVMs(candidates, candidates, m, maxVMs);
    }
    score := SpreadScore(n, maxVMs);
  }

  method ScoreNode(w: Weights, n: NodeStatus, spec: VMSpec, candidates: seq<NodeStatus>, now: int)
    returns (total: real)
    ensures candidates == [] ==> total == Sum(w, n, spec, 0.0, now)
    ensures candidates != [] ==> forall m :: IsMaxVMs(candidates, m) ==> total == Score(w, n, spec, m, now)
  {
    total := Weigh(w.binPacking, BinPackingScore(n, spec));
    var spread := ScoreSpread(n, candidates);
    total := total + Weigh(w.spread, spread);
    var locality := ScoreLocality(n, spec);
    total := total + Weigh(w.locality, locality);
    total := total + Weigh(w.freshness, FreshnessScore(n, now));
    total := total + Weigh(w.trust, TrustScore(n));
  }

  /** The largest VM count depends only on which nodes there are. */
  lemma OneMaxVMs(c: seq<NodeStatus>, d: seq<NodeStatus>, m: int, k: int)
    requires IsMaxVMs(c, m) && IsMaxVMs(d, k) && (forall n :: n in c <==> n in d)
    ensures m == k
  {
  }

  lemma DivMono(a: real, b: real, d: real)
    requires a <= b && d > 0.0
    ensures a / d <= b / d
  {
    var gap := (b - a) / d;
    assert gap >= 0.0 && b / d == a / d + gap;
  }

  /** Which way each score pulls: towards fuller nodes without counting beyond
      full, fewer VMs, later registration (within the last 365 days) and trust. */
  lemma ScoreDirections(n: NodeStatus, k: NodeStatus, spec: VMSpec, maxVMs: int, now: int)
    requires n.ramTotal == k.ramTotal > 0 && n.ramUsed <= k.ramUsed
    requires n.vmCount <= k.vmCount && maxVMs >= 1
    requires n.registeredAt.Some? && k.registeredAt.Some? && n.registeredAt.value <= k.registeredAt.value
    requires n.trustLevel <= k.trustLevel
    ensures BinPackingScore(n, spec) <= BinPackingScore(k, spec) <= 1.0
    ensures n.ramUsed + spec.memBytes >= n.ramTotal ==> BinPackingScore(n, spec) == 1.0
    ensures SpreadScore(n, maxVMs) >= SpreadScore(k, maxVMs)
    ensures SpreadScore(n, maxVMs) == 1.0 <==> n.vmCount == 0
    ensures 0.0 <= FreshnessScore(n, now) <= FreshnessScore(k, now) <= 1.0
    ensures now - n.registeredAt.value >= 365 * DAY ==> FreshnessScore(n, now) == 0.0
    ensures TrustScore(n) <= TrustScore(k)
  {
    var total := n.ramTotal as real;
    DivMono((n.ramUsed + spec.memBytes) as real, (k.ramUsed + spec.memBytes) as real, total);
    if n.ramUsed + spec.memBytes >= n.ramTotal {
      DivMono(total, (n.ramUsed + spec.memBytes) as real, total);
    }
    DivMono(n.vmCount as real, k.vmCount as real, maxVMs as real);
    assert n.vmCount as real == n.vmCount as real / maxVMs as real * maxVMs as real;
  }

  // ---- placement --------------------------------------------------------

  datatype Scored = Scored(node: NodeStatus, score: real)

  predicate Descending(s: seq<Scored>) {
    forall i, j :: 0 <= i < j < |s| ==> s[i].score >= s[j].score
  }

  method Swap(a: array<Scored>, i: nat)
    requires 0 < i < a.Length
    modifies a
    ensures a[i] == old(a[i - 1]) && a[i - 1] == old(a[i])
    ensures forall k :: 0 <= k < a.Length && k != i && k != i - 1 ==> a[k] == old(a[k])
    ensures multiset(a[..]) == multiset(old(a[..]))
  {
    a[i - 1], a[i] := a[i], a[i - 1];
  }

  predicate DescendingTo(a: array<Scored>, n: nat)
    requires n <= a.Length
    reads a
  {
    forall i, j :: 0 <= i < j < n ==> a[i].score >= a[j].score
  }

  method Insert(a: array<Scored>, i: nat)
    requires i < a.Length && DescendingTo(a, i)
    modifies a
    ensures DescendingTo(a, i + 1)
    ensures multiset(a[..]) == multiset(old(a[..]))
  {
    var j := i;
    while j > 0 && a[j - 1].score < a[j].score
      invariant 0 <= j <= i
      invariant forall x, y :: 0 <= x < y <= i && y != j ==> a[x].score >= a[y].score
      invariant multiset(a[..]) == multiset(old(a[..]))
    {
      Swap(a, j);
      j := j - 1;
    }
  }

  /** Stands for sort.Slice: any reordering that is descending by score. */
  method SortDescending(a: array<Scored>)
    modifies a
    ensures Descending(a[..])
    ensures multiset(a[..]) == multiset(old(a[..]))
  {
    for i := 0 to a.Length
      invariant DescendingTo(a, i)
      invariant multiset(a[..]) == multiset(old(a[..]))
    {
      Insert(a, i);
    }
  }

  /** `best` passes, scores `score`, and no other passing node scores more. */
  ghost predicate Best(w: Weights, nodes: seq<NodeStatus>, spec: VMSpec, maxVMs: int, now: int, best: NodeStatus, score: real)
    requires maxVMs >= 1
  {
    && best in nodes && Passes(best, spec) && score == Score(w, best, spec, maxVMs, now)
    && forall n :: n in nodes && Passes(n, spec) ==> Score(w, n, spec, maxVMs, now) <= score
  }

  ghost predicate IsBest(w: Weights, nodes: seq<NodeStatus>, spec: VMSpec, now: int, best: NodeStatus, score: real) {
    exists m :: IsMaxVMs(Filtered(nodes, spec), m) && Best(w, nodes, spec, m, now, best, score)
  }

  method PlaceVM(w: Weights, nodes: seq<NodeStatus>, spec: VMSpec, now: int) returns (r: Option<NodeStatus>, ghost score: real)
    ensures r.None? <==> forall n :: n in nodes ==> !Passes(n, spec)
    ensures r.Some? ==> IsBest(w, nodes, spec, now, r.value, score)
  {
    score := 0.0;
    var candidates := Filter(nodes, spec);
    if |candidates| == 0 {
      return None, score;
    }
    assert candidates[0] in candidates;
    ghost var m := MaxVMs(candidates);
    var scored := new Scored[|candidates|];
    for i := 0 to |candidates|
      invariant forall j :: 0 <= j < i ==> scored[j] == Scored(candidates[j], Score(w, candidates[j], spec, m, now))
    {
      var s := ScoreNode(w, candidates[i], spec, candidates, now);
      scored[i] := Scored(candidates[i], s);
    }
    ghost var filled := scored[..];
    SortDescending(scored);
    SameElements(filled, scored[..]);
    var winner := scored[0];
    score := winner.score;
    assert winner in scored[..];
    forall n | n in nodes && Passes(n, spec)
      ensures Score(w, n, spec, m, now) <= winner.score
    {
      var i :| 0 <= i < |candidates| && candidates[i] == n;
      assert filled[i] in scored[..];
    }
    assert Best(w, nodes, spec, m, now, winner.node, score);
    return Some(winner.node), score;
  }

  lemma SameElements(s: seq<Scored>, t: seq<Scored>)
    requires multiset(s) == multiset(t)
    ensures forall x :: x in s <==> x in t
  {
    forall x
      ensures x in s <==> x in t
    {
      assert x in s <==> x in multiset(s);
      assert x in t <==> x in multiset(t);
    }
  }

  /** The best score depends only on which passing nodes there are: reordering the
      input, repeating nodes or adding nodes that do not pass changes nothing. */
  lemma BestScoreStable(w: Weights, nodes: seq<NodeStatus>, nodes': seq<NodeStatus>, spec: VMSpec, now: int,
                        best: NodeStatus, best': NodeStatus, score: real, score': real)
    requires forall n :: Passes(n, spec) ==> (n in nodes <==> n in nodes')
    requires IsBest(w, nodes, spec, now, best, score) && IsBest(w, nodes', spec, now, best', score')
    ensures score == score' && IsBest(w, nodes', spec, now, best, score)
  {
    var m :| IsMaxVMs(Filtered(nodes, spec), m) && Best(w, nodes, spec, m, now, best, score);
    var k :| IsMaxVMs(Filtered(nodes', spec), k) && Best(w, nodes', spec, k, now, best', score');
    OneMaxVMs(Filtered(nodes, spec), Filtered(nodes', spec), m, k);
    assert Best(w, nodes', spec, m, now, best, score);
  }

  lemma ScoreIgnoresVCPUs(w: Weights, n: NodeStatus, spec: VMSpec, vcpus: int, maxVMs: int, now: int)
    requires maxVMs >= 1
    ensures Passes(n, spec.(vcpus := vcpus)) == Passes(n, spec)
    ensures Score(w, n, spec.(vcpus := vcpus), maxVMs, now) == Score(w, n, spec, maxVMs, now)
  {
    assert BinPackingScore(n, spec.(vcpus := vcpus)) == BinPackingScore(n, spec);
    assert LocalityScore(n, spec.(vcpus := vcpus)) == LocalityScore(n, spec);
  }

  /** The filter and every score ignore the number of virtual CPUs asked for. */
  lemma VCPUsIgnored(w: Weights, nodes: seq<NodeStatus>, spec: VMSpec, vcpus: int, now: int,
                     best: NodeStatus, score: real)
    requires IsBest(w, nodes, spec, now, best, score)
    ensures IsBest(w, nodes, spec.(vcpus := vcpus), now, best, score)
  {
    var m :| IsMaxVMs(Filtered(nodes, spec), m) && Best(w, nodes, spec, m, now, best, score);
    forall n
      ensures Passes(n, spec.(vcpus := vcpus)) == Passes(n, spec)
      ensures Score(w, n, spec.(vcpus := vcpus), m, now) == Score(w, n, spec, m, now)
    {
      ScoreIgnoresVCPUs(w, n, spec, vcpus, m, now);
    }
    assert IsMaxVMs(Filtered(nodes, spec.(vcpus := vcpus)), m);
    assert Best(w, nodes, spec.(vcpus := vcpus), m, now, best, score);
  }

  // ---- what is placed where ---------------------------------------------

  /** The hard constraints in the caller's figures: what is used beyond the total
      leaves nothing available, and asking for nothing always fits. */
  lemma PassesIff(n: NodeStatus, spec: VMSpec)
    ensures Passes(n, spec) == (
              && n.ready && n.health == "healthy" && !n.draining
              && (spec.memBytes > 0 ==> n.ramUsed + spec.memBytes <= n.ramTotal)
              && (spec.diskBytes > 0 ==> n.diskUsed + spec.diskBytes <= n.diskTotal)
              && (spec.minTrustLevel > 0 ==> n.trustLevel >= spec.minTrustLevel))
  {
  }

  /** The share of RAM in use with the VM, at most one. */
  function RamShare(n: NodeStatus, spec: VMSpec): real {
    if n.ramTotal == 0 then 0.0
    else
      var share := (n.ramUsed + spec.memBytes) as real / n.ramTotal as real;
      if share > 1.0 then 1.0 else share
  }

  /** One for a new node, falling to nothing over 365 days. */
  function Freshness(n: NodeStatus, now: int): real {
    if n.registeredAt.None? then 0.5
    else
      var age := (now - n.registeredAt.value) as real / 86_400_000_000_000.0 / 365.0;
      if age < 0.0 then 1.0 else if age > 1.0 then 0.0 else 1.0 - age
  }

  /** The total is the weighted sum of the share of RAM in use, the distance from
      the largest VM count, 1 where the user has VMs or 0.8 on a preferred node, the
      freshness and a hundredth of the trust level. */
  lemma ScoreIsWeightedSum(w: Weights, n: NodeStatus, spec: VMSpec, maxVMs: int, now: int)
    requires maxVMs >= 1
    ensures Score(w, n, spec, maxVMs, now)
      == w.binPacking * RamShare(n, spec)
        + w.spread * (1.0 - n.vmCount as real / maxVMs as real)
        + w.locality * (if spec.userID in n.userIDs then 1.0 else if n.id in spec.preferNodeIDs then 0.8 else 0.0)
        + w.freshness * Freshness(n, now)
        + w.trust * (n.trustLevel as real / 100.0)
  {
    assert BinPackingScore(n, spec) == RamShare(n, spec);
    assert FreshnessScore(n, now) == Freshness(n, now);
  }

  /** 2 where the user has VMs, 1 on a preferred node, 0 elsewhere. */
  function LocalityClass(n: NodeStatus, spec: VMSpec): nat {
    if spec.userID in n.userIDs then 2 else if n.id in spec.preferNodeIDs then 1 else 0
  }

  /** RAM in use with the VM, counted up to the total. */
  function RamCounted(n: NodeStatus, spec: VMSpec): int {
    if n.ramUsed + spec.memBytes > n.ramTotal then n.ramTotal else n.ramUsed + spec.memBytes
  }

  /** The age at a placement, counted from 0 to 365 days. */
  function AgeCounted(n: NodeStatus, now: int): int
    requires n.registeredAt.Some?
  {
    var age := now - n.registeredAt.value;
    if age < 0 then 0 else if age > 365 * DAY then 365 * DAY else age
  }

  /** `a` is no worse than `b` in any respect: two nodes with the same amount of RAM,
      whose registration is known of both or of neither. */
  predicate NoWorse(a: NodeStatus, b: NodeStatus, spec: VMSpec, now: int) {
    && a.ramTotal == b.ramTotal >= 0 && RamCounted(a, spec) >= RamCounted(b, spec)
    && a.vmCount <= b.vmCount
    && LocalityClass(a, spec) >= LocalityClass(b, spec)
    && a.registeredAt.Some? == b.registeredAt.Some?
    && (a.registeredAt.Some? ==> AgeCounted(a, now) <= AgeCounted(b, now))
    && a.trustLevel >= b.trustLevel
  }

  /** In some respect that carries weight `a` is better. */
  predicate Better(w: Weights, a: NodeStatus, b: NodeStatus, spec: VMSpec, now: int) {
    || (w.binPacking > 0.0 && a.ramTotal > 0 && RamCounted(a, spec) > RamCounted(b, spec))
    || (w.spread > 0.0 && a.vmCount < b.vmCount)
    || (w.locality > 0.0 && LocalityClass(a, spec) > LocalityClass(b, spec))
    || (w.freshness > 0.0 && a.registeredAt.Some? && b.registeredAt.Some? && AgeCounted(a, now) < AgeCounted(b, now))
    || (w.trust > 0.0 && a.trustLevel > b.trustLevel)
  }

  predicate NonNegative(w: Weights) {
    w.binPacking >= 0.0 && w.spread >= 0.0 && w.locality >= 0.0 && w.freshness >= 0.0 && w.trust >= 0.0
  }

  lemma DivStrict(a: real, b: real, d: real)
    requires a < b && d > 0.0
    ensures a / d < b / d
  {
    var gap := (b - a) / d;
    assert gap > 0.0 && b / d == a / d + gap;
  }

  lemma ShareCapped(used: real, total: real)
    requires total > 0.0
    ensures total / total == 1.0
    ensures used / total > 1.0 <==> used > total
  {
    if used > total {
      DivStrict(total, used, total);
    } else {
      DivMono(used, total, total);
    }
  }

  lemma RamShareIs(n: NodeStatus, spec: VMSpec)
    requires n.ramTotal > 0
    ensures BinPackingScore(n, spec) == RamCounted(n, spec) as real / n.ramTotal as real
  {
    ShareCapped((n.ramUsed + spec.memBytes) as real, n.ramTotal as real);
  }

  lemma FreshnessIs(n: NodeStatus, now: int)
    requires n.registeredAt.Some?
    ensures FreshnessScore(n, now) == 1.0 - AgeCounted(n, now) as real / DAY as real / 365.0
  {
  }

  lemma PackingOrder(a: NodeStatus, b: NodeStatus, spec: VMSpec, now: int)
    requires NoWorse(a, b, spec, now)
    ensures BinPackingScore(a, spec) >= BinPackingScore(b, spec)
    ensures a.ramTotal > 0 && RamCounted(a, spec) > RamCounted(b, spec) ==>
        BinPackingScore(a, spec) > BinPackingScore(b, spec)
  {
    if a.ramTotal == 0 {
      return;
    }
    RamShareIs(a, spec);
    RamShareIs(b, spec);
    DivMono(RamCounted(b, spec) as real, RamCounted(a, spec) as real, a.ramTotal as real);
    if RamCounted(a, spec) > RamCounted(b, spec) {
      DivStrict(RamCounted(b, spec) as real, RamCounted(a, spec) as real, a.ramTotal as real);
    }
  }

  lemma SpreadOrder(a: NodeStatus, b: NodeStatus, maxVMs: int)
    requires a.vmCount <= b.vmCount && maxVMs >= 1
    ensures SpreadScore(a, maxVMs) >= SpreadScore(b, maxVMs)
    ensures a.vmCount < b.vmCount ==> SpreadScore(a, maxVMs) > SpreadScore(b, maxVMs)
  {
    DivMono(a.vmCount as real, b.vmCount as real, maxVMs as real);
    if a.vmCount < b.vmCount {
      DivStrict(a.vmCount as real, b.vmCount as real, maxVMs as real);
    }
  }

  lemma FreshnessOrder(a: NodeStatus, b: NodeStatus, now: int)
    requires a.registeredAt.Some? && b.registeredAt.Some? && AgeCounted(a, now) <= AgeCounted(b, now)
    ensures FreshnessScore(a, now) >= FreshnessScore(b, now)
    ensures AgeCounted(a, now) < AgeCounted(b, now) ==> FreshnessScore(a, now) > FreshnessScore(b, now)
  {
    FreshnessIs(a, now);
    FreshnessIs(b, now);
  }

  lemma WeighSplits(weight: real, x: real, y: real, gap: real)
    requires x == y + gap
    ensures Weigh(weight, x) == Weigh(weight, y) + Weigh(weight, gap)
  {
  }

  lemma WeighPositive(weight: real, gap: real)
    requires weight > 0.0 && gap > 0.0
    ensures Weigh(weight, gap) > 0.0
  {
  }

  lemma WeighOrder(weight: real, x: real, y: real)
    requires weight >= 0.0 && x >= y
    ensures Weigh(weight, x) >= Weigh(weight, y)
    ensures weight > 0.0 && x > y ==> Weigh(weight, x) > Weigh(weight, y)
  {
    if weight > 0.0 && x > y {
      WeighSplits(weight, x, y, x - y);
      WeighPositive(weight, x - y);
    }
  }

  /** A node is never placed on when another that passes is no worse in any respect
      and better in one that carries weight. */
  lemma WorseNotPlaced(w: Weights, nodes: seq<NodeStatus>, spec: VMSpec, now: int,
                       best: NodeStatus, score: real, other: NodeStatus)
    requires NonNegative(w) && IsBest(w, nodes, spec, now, best, score) && other in nodes && Passes(other, spec)
    requires NoWorse(other, best, spec, now)
    ensures !Better(w, other, best, spec, now)
  {
    var m :| IsMaxVMs(Filtered(nodes, spec), m) && Best(w, nodes, spec, m, now, best, score);
    PackingOrder(other, best, spec, now);
    SpreadOrder(other, best, m);
    if other.registeredAt.Some? {
      FreshnessOrder(other, best, now);
    }
    WeighOrder(w.binPacking, BinPackingScore(other, spec), BinPackingScore(best, spec));
    WeighOrder(w.spread, SpreadScore(other, m), SpreadScore(best, m));
    WeighOrder(w.locality, LocalityScore(other, spec), LocalityScore(best, spec));
    WeighOrder(w.freshness, FreshnessScore(other, now), FreshnessScore(best, now));
    WeighOrder(w.trust, TrustScore(other), TrustScore(best));
    assert Score(w, other, spec, m, now) <= Score(w, best, spec, m, now);
  }
}
