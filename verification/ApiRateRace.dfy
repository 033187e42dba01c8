/**
  The same limiter (internal/api/ratelimit.go) between its critical sections, for
  one key.  A call looks the bucket up and takes from it later, under the bucket's
  own lock; the cleanup inspects a bucket under that lock and deletes it from the
  table after letting go.  Any number of calls may be in flight.
*/
module ApiRateRace {
  import TB = TokenBucket
  import opened ApiRateLimit
  import opened Wrappers

  /** All buckets ever made for the key, the one in the table, the ones that
      calls in flight hold, and whether the cleanup is about to delete. */
  datatype State = State(made: seq<TB.Bucket>, current: Option<nat>, held: map<nat, nat>, doomed: bool)

  const INITIAL := State([], None, map[], false)

  /** `passTime` is the clock reading with which the cleanup's pass began. */
  datatype Step =
    | Find(call: nat, at: real)
    | Take(call: nat, at: real)
    | Inspect(passTime: real, at: real)
    | Delete(at: real)

  /** The table holds the latest bucket, if any, and no other is about to go. */
  predicate Sane(s: State) {
    && (s.current.Some? ==> s.current.value + 1 == |s.made|)
    && (forall h :: h in s.held ==> s.held[h] < |s.made|)
    && (s.doomed ==> s.current.Some?)
  }

  /** The state in which a lookup finds a bucket, made if there was none. */
  function Found(c: Config, s: State, at: real): State {
    if s.current.Some? then s else s.(made := s.made + [TB.Full(c.burst, at)], current := Some(|s.made|))
  }

  function AfterFind(c: Config, s: State, call: nat, at: real): State {
    if call in s.held then s
    else
      var found := Found(c, s, at);
      found.(held := s.held[call := found.current.value])
  }

  function AfterTake(c: Config, s: State, call: nat, at: real): State
    requires Sane(s)
  {
    if call !in s.held then s
    else
      var id := s.held[call];
      s.(made := s.made[id := TB.AfterCall(c.burst, s.made[id], at)], held := s.held - {call})
  }

  function Apply(c: Config, s: State, e: Step): (t: State)
    requires Sane(s)
    ensures Sane(t)
  {
    match e
    case Find(call, at) => AfterFind(c, s, call, at)
    case Take(call, at) => AfterTake(c, s, call, at)
    case Inspect(passTime, _) =>
      s.(doomed := s.current.Some? && Stale(c, s.made[s.current.value], passTime))
    case Delete(_) => if s.doomed then s.(current := None, doomed := false) else s
  }

  predicate Admits(c: Config, s: State, e: Step)
    requires Sane(s)
  {
    e.Take? && e.call in s.held && TB.Admits(c.burst, s.made[s.held[e.call]], e.at)
  }

  /** The clock does not go back, and a pass began before it inspects. */
  predicate Ordered(from: real, es: seq<Step>)
    decreases |es|
  {
    es == [] ||
    (from <= es[0].at && (es[0].Inspect? ==> es[0].passTime <= es[0].at) && Ordered(es[0].at, es[1..]))
  }

  function After(c: Config, s: State, es: seq<Step>): (t: State)
    requires Sane(s)
    ensures Sane(t)
    decreases |es|
  {
    if es == [] then s else After(c, Apply(c, s, es[0]), es[1..])
  }

  /** Calls admitted at a time in [lo, hi]. */
  function Admitted(c: Config, s: State, es: seq<Step>, lo: real, hi: real): nat
    requires Sane(s)
    decreases |es|
  {
    if es == [] then 0
    else
      (if Admits(c, s, es[0]) && lo <= es[0].at <= hi then 1 else 0)
        + Admitted(c, Apply(c, s, es[0]), es[1..], lo, hi)
  }

  predicate Makes(s: State, e: Step) {
    e.Find? && e.call !in s.held && s.current.None?
  }

  /** Buckets made up to `hi`. */
  function Made(c: Config, s: State, es: seq<Step>, hi: real): nat
    requires Sane(s)
    decreases |es|
  {
    if es == [] then 0
    else (if Makes(s, es[0]) && es[0].at <= hi then 1 else 0) + Made(c, Apply(c, s, es[0]), es[1..], hi)
  }

  /** Buckets the cleanup takes out of the table at a time in [lo, hi]. */
  function Evictions(c: Config, s: State, es: seq<Step>, lo: real, hi: real): nat
    requires Sane(s)
    decreases |es|
  {
    if es == [] then 0
    else
      (if es[0].Delete? && s.doomed && lo <= es[0].at <= hi then 1 else 0)
        + Evictions(c, Apply(c, s, es[0]), es[1..], lo, hi)
  }

  /** Calls in flight that hold one of the first `k` buckets. */
  function Holders(held: map<nat, nat>, k: nat): set<nat> {
    set h | h in held && held[h] < k
  }

  function HoldingBelow(s: State, k: nat): nat {
    |Holders(s.held, k)|
  }

  /** The number of buckets evicted so far. */
  function Evicted(s: State): nat {
    if s.current.Some? then s.current.value else |s.made|
  }

  /** Calls in flight that hold an evicted bucket when the clock reaches `lo`. */
  function StrandedAt(c: Config, s: State, es: seq<Step>, lo: real): nat
    requires Sane(s)
    decreases |es|
  {
    if es == [] || es[0].at >= lo then HoldingBelow(s, Evicted(s)) else StrandedAt(c, Apply(c, s, es[0]), es[1..], lo)
  }

  // ---- paying for admissions --------------------------------------------

  lemma {:induction false} OneMoreThanEvictions(c: Config, s: State, es: seq<Step>, lo: real, hi: real)
    requires Sane(s) && Ordered(lo, es)
    ensures Made(c, s, es, hi) <= Evictions(c, s, es, lo, hi) + (if s.current.None? then 1 else 0)
    decreases |es|
  {
    if es != [] {
      var e := es[0];
      OrderedFrom(lo, e.at, es[1..]);
      if hi < e.at {
        NoneMade(c, s, es, hi);
      } else {
        OneMoreThanEvictions(c, Apply(c, s, e), es[1..], lo, hi);
      }
    }
  }

  lemma OrderedFrom(from: real, at: real, es: seq<Step>)
    requires from <= at && Ordered(at, es)
    ensures Ordered(from, es)
  {
  }

  lemma {:induction false} NoneMade(c: Config, s: State, es: seq<Step>, hi: real)
    requires Sane(s) && es != [] && Ordered(es[0].at, es) && hi < es[0].at
    ensures Made(c, s, es, hi) == 0
    decreases |es|
  {
    if es[1..] != [] {
      NoneMade(c, Apply(c, s, es[0]), es[1..], hi);
    }
  }

  lemma {:induction false} NoneAfter(c: Config, s: State, es: seq<Step>, from: real, lo: real, hi: real)
    requires Sane(s) && Ordered(from, es) && hi < from
    ensures Admitted(c, s, es, lo, hi) == 0
    decreases |es|
  {
    if es != [] {
      NoneAfter(c, Apply(c, s, es[0]), es[1..], es[0].at, lo, hi);
    }
  }

  predicate AllSound(c: Config, made: seq<TB.Bucket>, now: real) {
    forall i :: 0 <= i < |made| ==> TB.Sound(c.burst, made[i]) && made[i].last <= now
  }

  /** What these buckets together can pay for from `now` up to `hi`. */
  function Purses(c: Config, made: seq<TB.Bucket>, now: real, hi: real): real {
    if made == [] then 0.0 else TB.Purse(c.burst, made[0], now, hi) + Purses(c, made[1..], now, hi)
  }

  lemma {:induction false} PursesShrink(c: Config, made: seq<TB.Bucket>, now: real, later: real, hi: real)
    requires c.Legal() && AllSound(c, made, now) && now <= later <= hi
    ensures 0.0 <= Purses(c, made, later, hi) <= Purses(c, made, now, hi)
  {
    if made != [] {
      assert TB.Sound(c.burst, made[0]) && made[0].last <= now;
      PursesShrink(c, made[1..], now, later, hi);
    }
  }

  lemma {:induction false} PursesSet(c: Config, made: seq<TB.Bucket>, i: nat, b: TB.Bucket, now: real, hi: real)
    requires i < |made|
    ensures Purses(c, made[i := b], now, hi)
      == Purses(c, made, now, hi) - TB.Purse(c.burst, made[i], now, hi) + TB.Purse(c.burst, b, now, hi)
  {
    if i == 0 {
      assert made[i := b][1..] == made[1..];
    } else {
      assert made[i := b][1..] == made[1..][i - 1 := b];
      PursesSet(c, made[1..], i - 1, b, now, hi);
    }
  }

  lemma {:induction false} PursesAppend(c: Config, made: seq<TB.Bucket>, b: TB.Bucket, now: real, hi: real)
    ensures Purses(c, made + [b], now, hi) == Purses(c, made, now, hi) + TB.Purse(c.burst, b, now, hi)
  {
    if made == [] {
      assert made + [b] == [b] && [b][1..] == [];
    } else {
      assert (made + [b])[1..] == made[1..] + [b];
      PursesAppend(c, made[1..], b, now, hi);
    }
  }

  /** `n` shares of `each`. */
  function Shares(n: nat, each: real): real {
    if n == 0 then 0.0 else each + Shares(n - 1, each)
  }

  lemma {:induction false} SharesGrow(n: nat, m: nat, each: real)
    requires n <= m && each >= 0.0
    ensures 0.0 <= Shares(n, each) <= Shares(m, each)
  {
    if n > 0 {
      SharesGrow(n - 1, m - 1, each);
    } else if m > 0 {
      SharesGrow(n, m - 1, each);
    }
  }

  /** What is there to pay for admissions: one each for the calls that hold one of
      the first `k` buckets, and the purses of the other buckets. */
  function Means(c: Config, s: State, k: nat, now: real, hi: real): real
    requires k <= |s.made|
  {
    HoldingBelow(s, k) as real + Purses(c, s.made[k..], now, hi)
  }

  lemma Without<T>(before: set<T>, after: set<T>, x: T)
    requires after == before - {x}
    ensures |after| == |before| - (if x in before then 1 else 0)
  {
    if x !in before {
      assert after == before;
    }
  }

  lemma OneFewer(held: map<nat, nat>, call: nat, k: nat)
    requires call in held
    ensures |Holders(held - {call}, k)| == |Holders(held, k)| - (if held[call] < k then 1 else 0)
  {
    assert Holders(held - {call}, k) == Holders(held, k) - {call};
    Without(Holders(held, k), Holders(held - {call}, k), call);
  }

  lemma FindHolds(c: Config, s: State, call: nat, at: real, k: nat)
    requires Sane(s) && k <= Evicted(s)
    ensures HoldingBelow(AfterFind(c, s, call, at), k) == HoldingBelow(s, k)
  {
    assert Holders(AfterFind(c, s, call, at).held, k) == Holders(s.held, k);
  }

  /** A step pays for its admission with the call itself or out of the bucket it
      takes from; a new bucket brings one more share. */
  lemma StepPays(c: Config, s: State, e: Step, k: nat, hi: real)
    requires c.Legal() && Sane(s) && AllSound(c, s.made, e.at) && k <= Evicted(s) && e.at <= hi
    ensures AllSound(c, Apply(c, s, e).made, e.at) && k <= Evicted(Apply(c, s, e))
    ensures Means(c, Apply(c, s, e), k, e.at, hi) + (if Admits(c, s, e) then 1.0 else 0.0)
      <= Means(c, s, k, e.at, hi) + (if Makes(s, e) then c.burst as real + (hi - e.at) else 0.0)
  {
    match e {
      case Find(call, at) =>
        FindHolds(c, s, call, at, k);
        if Makes(s, e) {
          assert (s.made + [TB.Full(c.burst, at)])[k..] == s.made[k..] + [TB.Full(c.burst, at)];
          PursesAppend(c, s.made[k..], TB.Full(c.burst, at), at, hi);
        }
      case Take(call, at) =>
        if call in s.held {
          OneFewer(s.held, call, k);
          TakePays(c, s, call, at, k, hi);
        }
      case Inspect(_, _) =>
      case Delete(_) =>
    }
  }

  lemma TakePays(c: Config, s: State, call: nat, at: real, k: nat, hi: real)
    requires c.Legal() && Sane(s) && AllSound(c, s.made, at) && k <= |s.made| && at <= hi && call in s.held
    ensures AllSound(c, AfterTake(c, s, call, at).made, at)
    ensures Purses(c, AfterTake(c, s, call, at).made[k..], at, hi)
      == Purses(c, s.made[k..], at, hi)
        - (if s.held[call] >= k && TB.Admits(c.burst, s.made[s.held[call]], at) then 1.0 else 0.0)
  {
    var id := s.held[call];
    var b := TB.AfterCall(c.burst, s.made[id], at);
    if id >= k {
      assert s.made[id := b][k..] == s.made[k..][id - k := b];
      PursesSet(c, s.made[k..], id - k, b, at, hi);
    } else {
      assert s.made[id := b][k..] == s.made[k..];
    }
  }

  lemma LaterStepPays(c: Config, s: State, e: Step, k: nat, lo: real, hi: real, now: real)
    requires c.Legal() && Sane(s) && AllSound(c, s.made, now) && k <= Evicted(s) && lo <= now <= e.at <= hi
    ensures AllSound(c, Apply(c, s, e).made, e.at) && k <= Evicted(Apply(c, s, e))
    ensures Means(c, Apply(c, s, e), k, e.at, hi) + (if Admits(c, s, e) then 1.0 else 0.0)
      <= Means(c, s, k, now, hi) + (if Makes(s, e) then c.burst as real + (hi - lo) else 0.0)
  {
    PursesShrink(c, s.made[k..], now, e.at, hi);
    StepPays(c, s, e, k, hi);
  }

  lemma {:induction false} Budget(c: Config, s: State, es: seq<Step>, k: nat, lo: real, hi: real, now: real)
    requires c.Legal() && Sane(s) && AllSound(c, s.made, now) && Ordered(now, es) && k <= Evicted(s)
    requires lo <= now <= hi
    ensures Admitted(c, s, es, lo, hi) as real
      <= Means(c, s, k, now, hi) + Shares(Made(c, s, es, hi), c.burst as real + (hi - lo))
    decreases |es|
  {
    if es == [] || hi < es[0].at {
      SharesGrow(0, Made(c, s, es, hi), c.burst as real + (hi - lo));
      PursesShrink(c, s.made[k..], now, now, hi);
      if es != [] {
        NoneAfter(c, s, es, es[0].at, lo, hi);
      }
    } else {
      LaterStepPays(c, s, es[0], k, lo, hi, now);
      Budget(c, Apply(c, s, es[0]), es[1..], k, lo, hi, es[0].at);
    }
  }

  /** From a state at `lo` on: the calls stranded by then and a share for each
      bucket that can still be found. */
  lemma BoundedFrom(c: Config, s: State, es: seq<Step>, lo: real, hi: real)
    requires c.Legal() && Sane(s) && AllSound(c, s.made, lo) && Ordered(lo, es) && lo <= hi
    ensures Admitted(c, s, es, lo, hi) as real
      <= HoldingBelow(s, Evicted(s)) as real + Shares(1 + Evictions(c, s, es, lo, hi), c.burst as real + (hi - lo))
  {
    var each := c.burst as real + (hi - lo);
    var k := Evicted(s);
    Budget(c, s, es, k, lo, hi, lo);
    OneMoreThanEvictions(c, s, es, lo, hi);
    var made, evictions := Made(c, s, es, hi), Evictions(c, s, es, lo, hi);
    if s.current.Some? {
      assert s.made[k..] == [s.made[k]];
      assert Purses(c, [s.made[k]], lo, hi) == TB.Purse(c.burst, s.made[k], lo, hi) <= each;
      SharesGrow(made, evictions, each);
    } else {
      assert s.made[k..] == [];
      SharesGrow(made, 1 + evictions, each);
    }
  }

  // ---- evictions are far apart ------------------------------------------

  /** The next eviction comes no earlier. */
  function NextEviction(c: Config, s: State, now: real): real
    requires Sane(s)
  {
    if s.doomed then now
    else if s.current.None? then now + c.IdleLimit()
    else
      var idle := s.made[s.current.value].last + c.IdleLimit();
      if idle < now then now else idle
  }

  /** And not at that time either: some idling is still to come. */
  predicate StillToIdle(c: Config, s: State, now: real)
    requires Sane(s)
  {
    !s.doomed && (s.current.None? || s.made[s.current.value].last + c.IdleLimit() >= now)
  }

  lemma NextEvictionStep(c: Config, s: State, e: Step, now: real)
    requires c.Legal() && Sane(s) && AllSound(c, s.made, now) && Ordered(now, [e])
    ensures AllSound(c, Apply(c, s, e).made, e.at)
    ensures var next := Apply(c, s, e);
      if e.Delete? && s.doomed
      then NextEviction(c, s, now) <= e.at && NextEviction(c, next, e.at) == e.at + c.IdleLimit() && StillToIdle(c, next, e.at)
      else
        && NextEviction(c, s, now) <= NextEviction(c, next, e.at)
        && (StillToIdle(c, s, now) ==> NextEviction(c, s, now) < NextEviction(c, next, e.at) || StillToIdle(c, next, e.at))
  {
  }

  lemma {:induction false} EvictionsFollow(c: Config, s: State, es: seq<Step>, lo: real, hi: real, now: real)
    requires c.Legal() && Sane(s) && AllSound(c, s.made, now) && Ordered(now, es) && lo <= now
    ensures var n := Evictions(c, s, es, lo, hi);
      n > 0 ==>
        var last := NextEviction(c, s, now) + Shares(n - 1, c.IdleLimit());
        last <= hi && (n > 1 || StillToIdle(c, s, now) ==> last < hi)
    decreases |es|
  {
    if es != [] {
      var e := es[0];
      assert Ordered(now, [e]);
      NextEvictionStep(c, s, e, now);
      EvictionsFollow(c, Apply(c, s, e), es[1..], lo, hi, e.at);
    }
  }

  // ---- the bound for every interleaving ---------------------------------

  lemma {:induction false} BoundedThrough(c: Config, s: State, es: seq<Step>, now: real, lo: real, hi: real)
    requires c.Legal() && Sane(s) && AllSound(c, s.made, now) && Ordered(now, es) && now <= lo <= hi
    ensures Admitted(c, s, es, lo, hi) as real
      <= StrandedAt(c, s, es, lo) as real
        + Shares(1 + Evictions(c, s, es, lo, hi), c.burst as real + (hi - lo))
    decreases |es|
  {
    if es == [] || es[0].at >= lo {
      BoundedFrom(c, s, es, lo, hi);
    } else {
      assert Ordered(now, [es[0]]);
      NextEvictionStep(c, s, es[0], now);
      BoundedThrough(c, Apply(c, s, es[0]), es[1..], es[0].at, lo, hi);
    }
  }

  lemma {:induction false} EvictionsApart(c: Config, s: State, es: seq<Step>, now: real, lo: real, hi: real)
    requires c.Legal() && Sane(s) && AllSound(c, s.made, now) && Ordered(now, es) && now <= lo <= hi
    ensures var n := Evictions(c, s, es, lo, hi);
      n > 1 ==> Shares(n - 1, c.IdleLimit()) < hi - lo
    decreases |es|
  {
    if es == [] || es[0].at >= lo {
      EvictionsFollow(c, s, es, lo, hi, lo);
    } else {
      assert Ordered(now, [es[0]]);
      NextEvictionStep(c, s, es[0], now);
      EvictionsApart(c, Apply(c, s, es[0]), es[1..], es[0].at, lo, hi);
    }
  }

  /** However calls and cleanup interleave, and however long before: a window of
      length T lets through one call for each that was stranded with an evicted
      bucket when it opened, one share of burst + T, and one more for each eviction
      inside it, of which any two are more than the idle limit apart. */
  lemma EveryInterleavingBounded(c: Config, es: seq<Step>, start: real, lo: real, hi: real)
    requires c.Legal() && Ordered(start, es) && lo <= hi
    ensures Admitted(c, INITIAL, es, lo, hi) as real
      <= StrandedAt(c, INITIAL, es, lo) as real
        + Shares(1 + Evictions(c, INITIAL, es, lo, hi), c.burst as real + (hi - lo))
    ensures var n := Evictions(c, INITIAL, es, lo, hi);
      n > 1 ==> Shares(n - 1, c.IdleLimit()) < hi - lo
  {
    var from := if start < lo then start else lo;
    OrderedFrom(from, start, es);
    BoundedThrough(c, INITIAL, es, from, lo, hi);
    EvictionsApart(c, INITIAL, es, from, lo, hi);
  }

  // ---- running one sequence after another -------------------------------

  /** Ordered, and over by `to`. */
  predicate Spans(from: real, es: seq<Step>, to: real)
    decreases |es|
  {
    if es == [] then from <= to
    else from <= es[0].at && (es[0].Inspect? ==> es[0].passTime <= es[0].at) && Spans(es[0].at, es[1..], to)
  }

  lemma {:induction false} SpansAppend(from: real, es: seq<Step>, mid: real, fs: seq<Step>, to: real)
    requires Spans(from, es, mid) && Spans(mid, fs, to)
    ensures Spans(from, es + fs, to)
    decreases |es|
  {
    if es == [] {
      assert es + fs == fs;
    } else {
      assert (es + fs)[1..] == es[1..] + fs;
      SpansAppend(es[0].at, es[1..], mid, fs, to);
    }
  }

  lemma {:induction false} SpansOrdered(from: real, es: seq<Step>, to: real)
    requires Spans(from, es, to)
    ensures Ordered(from, es)
    decreases |es|
  {
    if es != [] {
      SpansOrdered(es[0].at, es[1..], to);
    }
  }

  lemma {:induction false} AfterAppend(c: Config, s: State, es: seq<Step>, fs: seq<Step>, lo: real, hi: real)
    requires Sane(s)
    ensures After(c, s, es + fs) == After(c, After(c, s, es), fs)
    ensures Admitted(c, s, es + fs, lo, hi) == Admitted(c, s, es, lo, hi) + Admitted(c, After(c, s, es), fs, lo, hi)
    decreases |es|
  {
    if es == [] {
      assert es + fs == fs;
    } else {
      assert (es + fs)[1..] == es[1..] + fs;
      AfterAppend(c, Apply(c, s, es[0]), es[1..], fs, lo, hi);
    }
  }

  predicate AllBefore(es: seq<Step>, t: real) {
    forall i :: 0 <= i < |es| ==> es[i].at < t
  }

  lemma {:induction false} BeforeWindow(c: Config, s: State, es: seq<Step>, fs: seq<Step>, t: real)
    requires Sane(s) && AllBefore(es, t) && (fs == [] || fs[0].at >= t)
    ensures Admitted(c, s, es, t, t) == 0
    ensures StrandedAt(c, s, es + fs, t) == HoldingBelow(After(c, s, es), Evicted(After(c, s, es)))
    decreases |es|
  {
    if es == [] {
      assert es + fs == fs;
    } else {
      assert (es + fs)[1..] == es[1..] + fs;
      assert es[0].at < t;
      BeforeWindow(c, Apply(c, s, es[0]), es[1..], fs, t);
    }
  }

  // ---- bursts -----------------------------------------------------------

  /** `n` calls, one after the other, at one moment. */
  function Burst(n: nat, at: real): seq<Step> {
    if n == 0 then [] else [Find(0, at), Take(0, at)] + Burst(n - 1, at)
  }

  /** The table's bucket after `n` tokens have been taken from it. */
  function Drained(c: Config, s: State, n: nat, at: real): State
    requires Sane(s) && s.current.Some?
  {
    var id := s.current.value;
    s.(made := s.made[id := TB.Bucket(TB.Refill(c.burst, s.made[id], at) - n as real, at)])
  }

  lemma OneCall(c: Config, s: State, at: real, rest: seq<Step>, lo: real, hi: real)
    requires Sane(s) && 0 !in s.held && lo <= at <= hi
    requires var f := Found(c, s, at); TB.Refill(c.burst, f.made[f.current.value], at) >= 1.0
    ensures var t := Drained(c, Found(c, s, at), 1, at);
      var es := [Find(0, at), Take(0, at)] + rest;
      && After(c, s, es) == After(c, t, rest)
      && Admitted(c, s, es, lo, hi) == 1 + Admitted(c, t, rest, lo, hi)
      && (Spans(at, rest, at) ==> Spans(at, es, at))
  {
    var es := [Find(0, at), Take(0, at)] + rest;
    assert es[0] == Find(0, at) && es[1..] == [Take(0, at)] + rest;
    assert es[1..][0] == Take(0, at) && es[1..][1..] == rest;
    var f := Found(c, s, at);
    var t := Apply(c, Apply(c, s, Find(0, at)), Take(0, at));
    assert f.held[0 := f.current.value] - {0} == s.held;
    assert t == Drained(c, f, 1, at);
  }

  lemma {:induction false} BurstAdmitted(c: Config, s: State, n: nat, at: real, lo: real, hi: real)
    requires c.Legal() && Sane(s) && 0 !in s.held && n > 0 && lo <= at <= hi
    requires var f := Found(c, s, at); TB.Refill(c.burst, f.made[f.current.value], at) >= n as real
    ensures After(c, s, Burst(n, at)) == Drained(c, Found(c, s, at), n, at)
    ensures Admitted(c, s, Burst(n, at), lo, hi) == n
    ensures Spans(at, Burst(n, at), at)
    decreases n
  {
    OneCall(c, s, at, Burst(n - 1, at), lo, hi);
    if n > 1 {
      BurstAdmitted(c, Drained(c, Found(c, s, at), 1, at), n - 1, at, lo, hi);
    }
  }

  // ---- a run that reaches the bound -------------------------------------

  /** Longer than the idle limit, and long enough for one token. */
  function Gap(c: Config): real {
    c.IdleLimit() + 1.0
  }

  function Clock(c: Config, n: nat): (t: real)
  {
    if n == 0 then 0.0 else Clock(c, n - 1) + Gap(c)
  }

  /** Calls 1 to `n`, each holding a bucket of its own. */
  function HeldBy(n: nat): (m: map<nat, nat>)
    ensures |m| == n && forall i: nat :: i in m <==> 1 <= i <= n
    ensures forall i: nat :: 1 <= i <= n ==> m[i] == i - 1
  {
    if n == 0 then map[] else HeldBy(n - 1)[n := n - 1]
  }

  /** Calls 1 to `n` hold evicted buckets that have a token at `t`; no other call
      is in flight. */
  predicate Stranding(c: Config, s: State, n: nat, t: real) {
    && Sane(s) && s.held == HeldBy(n) && n <= Evicted(s)
    && forall i :: 0 <= i < n ==> TB.Refill(c.burst, s.made[i], t) >= 1.0
  }

  lemma StrandingCounts(c: Config, s: State, n: nat, t: real)
    requires Stranding(c, s, n, t)
    ensures HoldingBelow(s, Evicted(s)) == n
  {
    assert Holders(s.held, Evicted(s)) == s.held.Keys;
  }

  /** A call finds a bucket that falls idle and is evicted before it takes from it. */
  function StrandOne(call: nat, at: real, later: real): seq<Step> {
    [Find(call, at)] + ([Inspect(later, later)] + ([Delete(later)] + []))
  }

  lemma StepThen(c: Config, s: State, e: Step, rest: seq<Step>, from: real, to: real)
    requires Sane(s) && from <= e.at && (e.Inspect? ==> e.passTime <= e.at) && Spans(e.at, rest, to)
    ensures After(c, s, [e] + rest) == After(c, Apply(c, s, e), rest)
    ensures Spans(from, [e] + rest, to)
  {
    assert ([e] + rest)[0] == e && ([e] + rest)[1..] == rest;
  }

  lemma OneStranded(c: Config, s: State, call: nat, at: real, later: real)
    requires Sane(s) && s.current.None? && call !in s.held && later - at > c.IdleLimit() && at <= later
    ensures After(c, s, StrandOne(call, at, later))
      == State(s.made + [TB.Full(c.burst, at)], None, s.held[call := |s.made|], false)
    ensures Spans(at, StrandOne(call, at, later), later)
  {
    var found := Apply(c, s, Find(call, at));
    var inspected := Apply(c, found, Inspect(later, later));
    StepThen(c, inspected, Delete(later), [], later, later);
    StepThen(c, found, Inspect(later, later), [Delete(later)] + [], at, later);
    StepThen(c, s, Find(call, at), [Inspect(later, later)] + ([Delete(later)] + []), at, later);
  }

  lemma Then(c: Config, s: State, es: seq<Step>, t: State, fs: seq<Step>, from: real, mid: real, to: real)
    requires Sane(s) && After(c, s, es) == t && Spans(from, es, mid) && Spans(mid, fs, to)
    ensures After(c, s, es + fs) == After(c, t, fs) && Spans(from, es + fs, to)
  {
    AfterAppend(c, s, es, fs, from, to);
    SpansAppend(from, es, mid, fs, to);
  }

  /** The calls and evictions that strand `n` calls, one after the other. */
  function Strand(c: Config, n: nat): seq<Step> {
    if n == 0 then [] else Strand(c, n - 1) + StrandOne(n, Clock(c, n - 1), Clock(c, n))
  }

  /** The buckets of the stranded calls, as they were made. */
  function Orphans(c: Config, n: nat): (made: seq<TB.Bucket>)
    ensures |made| == n && forall i :: 0 <= i < n ==> made[i] == TB.Full(c.burst, Clock(c, i))
  {
    if n == 0 then [] else Orphans(c, n - 1) + [TB.Full(c.burst, Clock(c, n - 1))]
  }

  function AllStranded(c: Config, n: nat): (s: State)
    ensures Sane(s)
  {
    State(Orphans(c, n), None, HeldBy(n), false)
  }

  lemma AllStrandedNext(c: Config, n: nat)
    requires n > 0
    ensures var s := AllStranded(c, n - 1);
      AllStranded(c, n) == State(s.made + [TB.Full(c.burst, Clock(c, n - 1))], None, s.held[n := |s.made|], false)
      && n !in s.held
  {
  }

  lemma StrandNext(c: Config, es: seq<Step>, s: State, t: State, call: nat, at: real, later: real)
    requires After(c, INITIAL, es) == s && Spans(0.0, es, at)
    requires Sane(s) && s.current.None? && call !in s.held && later - at > c.IdleLimit() && at <= later
    requires t == State(s.made + [TB.Full(c.burst, at)], None, s.held[call := |s.made|], false)
    ensures After(c, INITIAL, es + StrandOne(call, at, later)) == t
    ensures Spans(0.0, es + StrandOne(call, at, later), later)
  {
    OneStranded(c, s, call, at, later);
    Then(c, INITIAL, es, s, StrandOne(call, at, later), 0.0, at, later);
  }

  lemma {:induction false} StrandReached(c: Config, n: nat)
    requires c.Legal()
    ensures After(c, INITIAL, Strand(c, n)) == AllStranded(c, n)
    ensures Spans(0.0, Strand(c, n), Clock(c, n))
  {
    if n > 0 {
      StrandReached(c, n - 1);
      AllStrandedNext(c, n);
      StrandNext(c, Strand(c, n - 1), AllStranded(c, n - 1), AllStranded(c, n), n, Clock(c, n - 1), Clock(c, n));
    }
  }

  lemma {:induction false} OrphansOld(c: Config, n: nat, i: nat)
    requires c.Legal() && i <= n
    ensures Clock(c, i) <= Clock(c, n)
  {
    if i < n {
      OrphansOld(c, n - 1, i);
    }
  }

  /** The stranded calls take their tokens. */
  function Takes(n: nat, t: real): seq<Step> {
    if n == 0 then [] else [Take(n, t)] + Takes(n - 1, t)
  }

  lemma HeldByOneFewer(n: nat)
    requires n > 0
    ensures HeldBy(n) - {n} == HeldBy(n - 1)
  {
  }

  lemma OneTakes(c: Config, s: State, n: nat, t: real)
    requires Stranding(c, s, n, t) && n > 0
    ensures Admits(c, s, Take(n, t)) && Stranding(c, Apply(c, s, Take(n, t)), n - 1, t)
  {
    HeldByOneFewer(n);
  }

  lemma {:induction false} TakesAdmitted(c: Config, s: State, n: nat, t: real)
    requires Stranding(c, s, n, t)
    ensures Admitted(c, s, Takes(n, t), t, t) == n && Spans(t, Takes(n, t), t)
    decreases n
  {
    if n > 0 {
      assert Takes(n, t)[0] == Take(n, t) && Takes(n, t)[1..] == Takes(n - 1, t);
      OneTakes(c, s, n, t);
      TakesAdmitted(c, Apply(c, s, Take(n, t)), n - 1, t);
    }
  }

  /** A full idle bucket in the table, `n` calls stranded. */
  predicate Poised(c: Config, s: State, n: nat, t: real) {
    && Stranding(c, s, n, t) && s.current.Some? && !s.doomed
    && Stale(c, s.made[s.current.value], t) && TB.Refill(c.burst, s.made[s.current.value], t) == c.burst as real
  }

  /** One call goes through, and then the key falls idle. */
  function Idle(c: Config, n: nat): seq<Step> {
    Strand(c, n) + Burst(1, Clock(c, n))
  }

  /** One call has gone through, and `n` are stranded. */
  function AfterIdle(c: Config, n: nat): (s: State)
    ensures Sane(s)
  {
    State(Orphans(c, n) + [TB.Bucket(c.burst as real - 1.0, Clock(c, n))], Some(n), HeldBy(n), false)
  }

  lemma OneCallPoises(c: Config, n: nat, x: real)
    requires c.Legal() && x == Clock(c, n)
    ensures After(c, AllStranded(c, n), Burst(1, x)) == AfterIdle(c, n)
    ensures Spans(x, Burst(1, x), x)
  {
    BurstAdmitted(c, AllStranded(c, n), 1, x, x, x);
  }

  lemma StillFull(c: Config, n: nat, t: real)
    requires c.Legal() && t >= Clock(c, n)
    ensures forall i :: 0 <= i < n ==> TB.Refill(c.burst, Orphans(c, n)[i], t) >= 1.0
  {
    forall i | 0 <= i < n
      ensures TB.Refill(c.burst, Orphans(c, n)[i], t) >= 1.0
    {
      OrphansOld(c, n, i);
    }
  }

  lemma PoisedWith(c: Config, made: seq<TB.Bucket>, n: nat, last: TB.Bucket, t: real)
    requires |made| == n && forall i :: 0 <= i < n ==> TB.Refill(c.burst, made[i], t) >= 1.0
    requires Stale(c, last, t) && TB.Refill(c.burst, last, t) == c.burst as real
    ensures Poised(c, State(made + [last], Some(n), HeldBy(n), false), n, t)
  {
  }

  lemma AfterIdlePoised(c: Config, n: nat)
    requires c.Legal()
    ensures Poised(c, AfterIdle(c, n), n, Clock(c, n) + Gap(c))
  {
    var x := Clock(c, n);
    StillFull(c, n, x + Gap(c));
    PoisedWith(c, Orphans(c, n), n, TB.Bucket(c.burst as real - 1.0, x), x + Gap(c));
  }

  lemma IdleReached(c: Config, n: nat)
    requires c.Legal()
    ensures After(c, INITIAL, Idle(c, n)) == AfterIdle(c, n) && Spans(0.0, Idle(c, n), Clock(c, n))
  {
    var x := Clock(c, n);
    StrandReached(c, n);
    OneCallPoises(c, n, x);
    Then(c, INITIAL, Strand(c, n), AllStranded(c, n), Burst(1, x), 0.0, x, x);
  }

  /** The cleanup inspects, a burst of calls takes the tokens, the cleanup deletes,
      and a burst of calls gets a new bucket; the stranded calls come last. */
  function TwoShares(c: Config, n: nat, t: real): seq<Step>
    requires c.Legal()
  {
    [Inspect(t, t)] + (Burst(c.burst, t) + ([Delete(t)] + (Burst(c.burst, t) + Takes(n, t))))
  }

  lemma FirstStep(c: Config, s: State, e: Step, rest: seq<Step>, t: real)
    requires Sane(s) && e.at == t && !e.Take? && (e.Inspect? ==> e.passTime == t)
    ensures Admitted(c, s, [e] + rest, t, t) == Admitted(c, Apply(c, s, e), rest, t, t)
    ensures Spans(t, rest, t) ==> Spans(t, [e] + rest, t)
  {
    assert ([e] + rest)[0] == e && ([e] + rest)[1..] == rest;
  }

  lemma BurstThen(c: Config, s: State, n: nat, t: real, rest: seq<Step>)
    requires c.Legal() && Stranding(c, s, n, t)
    requires var f := Found(c, s, t); TB.Refill(c.burst, f.made[f.current.value], t) == c.burst as real
    ensures var d := Drained(c, Found(c, s, t), c.burst, t);
      && Stranding(c, d, n, t) && d.doomed == s.doomed && d.current.Some?
      && Admitted(c, s, Burst(c.burst, t) + rest, t, t) == c.burst + Admitted(c, d, rest, t, t)
      && (Spans(t, rest, t) ==> Spans(t, Burst(c.burst, t) + rest, t))
  {
    BurstAdmitted(c, s, c.burst, t, t, t);
    AfterAppend(c, s, Burst(c.burst, t), rest, t, t);
    if Spans(t, rest, t) {
      SpansAppend(t, Burst(c.burst, t), t, rest, t);
    }
  }

  lemma SecondShare(c: Config, s: State, n: nat, t: real)
    requires c.Legal() && Stranding(c, s, n, t) && s.doomed
    ensures Admitted(c, s, [Delete(t)] + (Burst(c.burst, t) + Takes(n, t)), t, t) == c.burst + n
    ensures Spans(t, [Delete(t)] + (Burst(c.burst, t) + Takes(n, t)), t)
  {
    var deleted := Apply(c, s, Delete(t));
    BurstThen(c, deleted, n, t, Takes(n, t));
    TakesAdmitted(c, Drained(c, Found(c, deleted, t), c.burst, t), n, t);
    FirstStep(c, s, Delete(t), Burst(c.burst, t) + Takes(n, t), t);
  }

  lemma TwoSharesAdmitted(c: Config, s: State, n: nat, t: real)
    requires c.Legal() && Poised(c, s, n, t)
    ensures Admitted(c, s, TwoShares(c, n, t), t, t) == 2 * c.burst + n
    ensures Spans(t, TwoShares(c, n, t), t)
  {
    var inspected := Apply(c, s, Inspect(t, t));
    var rest := [Delete(t)] + (Burst(c.burst, t) + Takes(n, t));
    BurstThen(c, inspected, n, t, rest);
    SecondShare(c, Drained(c, inspected, c.burst, t), n, t);
    FirstStep(c, s, Inspect(t, t), Burst(c.burst, t) + rest, t);
  }

  lemma {:induction false} SpansBefore(from: real, es: seq<Step>, to: real, t: real)
    requires Spans(from, es, to) && to < t
    ensures AllBefore(es, t)
    decreases |es|
  {
    if es != [] {
      SpansBefore(es[0].at, es[1..], to, t);
      LastWithin(es, from, to);
    }
  }

  lemma {:induction false} LastWithin(es: seq<Step>, from: real, to: real)
    requires Spans(from, es, to)
    ensures from <= to
    decreases |es|
  {
    if es != [] {
      LastWithin(es[1..], es[0].at, to);
    }
  }

  lemma MomentReached(c: Config, n: nat) returns (es: seq<Step>, t: real)
    requires c.Legal()
    ensures Ordered(0.0, es) && StrandedAt(c, INITIAL, es, t) == n
    ensures Admitted(c, INITIAL, es, t, t) == 2 * c.burst + n
  {
    var idle := Idle(c, n);
    t := Clock(c, n) + Gap(c);
    es := idle + TwoShares(c, n, t);
    var s := After(c, INITIAL, idle);
    IdleReached(c, n);
    AfterIdlePoised(c, n);
    TwoSharesAdmitted(c, s, n, t);
    SpansBefore(0.0, idle, Clock(c, n), t);
    BeforeWindow(c, INITIAL, idle, TwoShares(c, n, t), t);
    StrandingCounts(c, s, n, t);
    AfterAppend(c, INITIAL, idle, TwoShares(c, n, t), t, t);
    Stretch(0.0, idle, Clock(c, n), t);
    SpansAppend(0.0, idle, t, TwoShares(c, n, t), t);
    SpansOrdered(0.0, es, t);
  }

  lemma {:induction false} Stretch(from: real, es: seq<Step>, to: real, later: real)
    requires Spans(from, es, to) && to <= later
    ensures Spans(from, es, later)
    decreases |es|
  {
    if es != [] {
      Stretch(es[0].at, es[1..], to, later);
    }
  }

  /** In every interleaving at most `bound` calls are admitted at any one moment
      at which at most `n` calls are stranded. */
  ghost predicate MomentBound(c: Config, n: nat, bound: int) {
    forall start, es, t :: Ordered(start, es) && StrandedAt(c, INITIAL, es, t) <= n ==>
      Admitted(c, INITIAL, es, t, t) <= bound
  }

  /** The exact bound is twice the burst and one for each stranded call: the burst
      itself is kept by no setting. */
  lemma MomentBoundIff(c: Config, n: nat, bound: int)
    requires c.Legal()
    ensures MomentBound(c, n, bound) <==> bound >= 2 * c.burst + n
  {
    if bound >= 2 * c.burst + n {
      forall start, es, t | Ordered(start, es) && StrandedAt(c, INITIAL, es, t) <= n
        ensures Admitted(c, INITIAL, es, t, t) <= bound
      {
        EveryInterleavingBounded(c, es, start, t, t);
        AtMostOneEviction(c, Evictions(c, INITIAL, es, t, t));
      }
    } else {
      var es, t := MomentReached(c, n);
    }
  }

  lemma AtMostOneEviction(c: Config, n: nat)
    requires c.Legal() && (n > 1 ==> Shares(n - 1, c.IdleLimit()) < 0.0)
    ensures n <= 1 && Shares(1 + n, c.burst as real) <= 2.0 * c.burst as real
  {
    assert Shares(1, c.IdleLimit()) == c.IdleLimit() > 0.0;
    if n > 1 {
      SharesGrow(1, n - 1, c.IdleLimit());
      assert false;
    }
    assert Shares(1, c.burst as real) == c.burst as real && Shares(2, c.burst as real) == 2.0 * c.burst as real;
  }

  // ---- one call across a deletion ---------------------------------------

  /** A call looks its bucket up just before the cleanup inspects and deletes it,
      takes its token, and a burst of others gets a new bucket. */
  function AcrossDeletion(c: Config, t: real): seq<Step>
    requires c.Legal()
  {
    [Find(1, t)] + ([Inspect(t, t)] + ([Delete(t)] + ([Take(1, t)] + Burst(c.burst, t))))
  }

  lemma AcrossDeletionAdmitted(c: Config, s: State, t: real)
    requires c.Legal() && Poised(c, s, 0, t)
    ensures Admitted(c, s, AcrossDeletion(c, t), t, t) == c.burst + 1
    ensures Spans(t, AcrossDeletion(c, t), t)
  {
    var found := Apply(c, s, Find(1, t));
    var inspected := Apply(c, found, Inspect(t, t));
    var deleted := Apply(c, inspected, Delete(t));
    var taken := Apply(c, deleted, Take(1, t));
    var burst := Burst(c.burst, t);
    assert taken.held == map[];
    BurstAdmitted(c, taken, c.burst, t, t, t);
    var take := [Take(1, t)] + burst;
    assert take[0] == Take(1, t) && take[1..] == burst;
    FirstStep(c, inspected, Delete(t), take, t);
    FirstStep(c, found, Inspect(t, t), [Delete(t)] + take, t);
    FirstStep(c, s, Find(1, t), [Inspect(t, t)] + ([Delete(t)] + take), t);
  }

  /** Whatever the settings, one call that is in flight for no time at all while
      the cleanup deletes its bucket is one call too many. */
  lemma OneCallTooMany(c: Config) returns (es: seq<Step>, t: real)
    requires c.Legal()
    ensures es == Idle(c, 0) + AcrossDeletion(c, t) && Ordered(0.0, es) && StrandedAt(c, INITIAL, es, t) == 0
    ensures Admitted(c, INITIAL, es, t, t) == c.burst + 1
  {
    var idle := Idle(c, 0);
    t := Clock(c, 0) + Gap(c);
    es := idle + AcrossDeletion(c, t);
    var s := After(c, INITIAL, idle);
    IdleReached(c, 0);
    AfterIdlePoised(c, 0);
    AcrossDeletionAdmitted(c, s, t);
    SpansBefore(0.0, idle, Clock(c, 0), t);
    BeforeWindow(c, INITIAL, idle, AcrossDeletion(c, t), t);
    StrandingCounts(c, s, 0, t);
    AfterAppend(c, INITIAL, idle, AcrossDeletion(c, t), t, t);
    Stretch(0.0, idle, Clock(c, 0), t);
    SpansAppend(0.0, idle, t, AcrossDeletion(c, t), t);
    SpansOrdered(0.0, es, t);
  }

  // ---- calls that take from the table's bucket alone --------------------

  /** A call takes its token, if at all, from the bucket in the table, and not
      while the cleanup is about to delete that. */
  predicate TakesLive(s: State, e: Step) {
    e.Take? && e.call in s.held ==> !s.doomed && s.current == Some(s.held[e.call])
  }

  /** Every call of the run does; it may be in flight while others come and go. */
  predicate Live(c: Config, s: State, es: seq<Step>)
    requires Sane(s)
    decreases |es|
  {
    es == [] || (TakesLive(s, es[0]) && Live(c, Apply(c, s, es[0]), es[1..]))
  }

  lemma {:induction false} LiveAppend(c: Config, s: State, es: seq<Step>, fs: seq<Step>)
    requires Sane(s)
    ensures Live(c, s, es + fs) <==> Live(c, s, es) && Live(c, After(c, s, es), fs)
    decreases |es|
  {
    if es == [] {
      assert es + fs == fs;
    } else {
      assert (es + fs)[1..] == es[1..] + fs;
      LiveAppend(c, Apply(c, s, es[0]), es[1..], fs);
    }
  }

  /** The pass of the last inspection. */
  function PassAfter(pass: real, es: seq<Step>): real
    decreases |es|
  {
    if es == [] then pass else PassAfter(if es[0].Inspect? then es[0].passTime else pass, es[1..])
  }

  /** The run as whole calls and deletions of the limiter's table; a lookup is a
      query, and a deletion uses the clock reading of the inspection before it. */
  function Whole(c: Config, s: State, es: seq<Step>, pass: real, key: string): seq<Event>
    requires Sane(s)
    decreases |es|
  {
    if es == [] then []
    else WholeStep(s, es[0], pass, key) + Whole(c, Apply(c, s, es[0]), es[1..], PassAfter(pass, [es[0]]), key)
  }

  function WholeStep(s: State, e: Step, pass: real, key: string): seq<Event> {
    match e
    case Find(call, at) => if call in s.held then [] else [Ask(key, at)]
    case Take(call, at) => if call in s.held then [Call(key, at)] else []
    case Inspect(_, _) => []
    case Delete(at) => if s.doomed then [ApiRateLimit.Sweep(key, pass, at)] else []
  }

  /** Both tables hold the same bucket; a doomed one was stale in the last pass. */
  predicate SameBucket(c: Config, s: State, pass: real, table: Table, key: string, now: real)
    requires Sane(s)
  {
    && (if s.current.None? then key !in table else key in table && table[key] == s.made[s.current.value])
    && (s.doomed ==> pass <= now && Stale(c, s.made[s.current.value], pass))
  }

  lemma PassOfOne(pass: real, e: Step)
    ensures PassAfter(pass, [e]) == if e.Inspect? then e.passTime else pass
  {
    assert [e][1..] == [];
  }

  lemma WholeStepMatches(c: Config, s: State, e: Step, pass: real, table: Table, key: string, now: real, lo: real, hi: real)
    requires Sane(s) && SameBucket(c, s, pass, table, key, now) && Ordered(now, [e]) && TakesLive(s, e)
    ensures var fs := WholeStep(s, e, pass, key);
      && WellTimed(now, fs)
      && SameBucket(c, Apply(c, s, e), PassAfter(pass, [e]), ApplyAll(c, table, fs), key, e.at)
      && ApiRateLimit.Admitted(c, table, fs, key, lo, hi) == if Admits(c, s, e) && lo <= e.at <= hi then 1 else 0
  {
    var fs := WholeStep(s, e, pass, key);
    PassOfOne(pass, e);
    if fs != [] {
      assert fs[1..] == [];
      assert ApplyAll(c, table, fs) == ApiRateLimit.Apply(c, table, fs[0]);
    }
  }

  lemma {:induction false} EventsAppend(c: Config, table: Table, es: seq<Event>, fs: seq<Event>, key: string, lo: real, hi: real)
    ensures ApplyAll(c, table, es + fs) == ApplyAll(c, ApplyAll(c, table, es), fs)
    ensures ApiRateLimit.Admitted(c, table, es + fs, key, lo, hi)
      == ApiRateLimit.Admitted(c, table, es, key, lo, hi) + ApiRateLimit.Admitted(c, ApplyAll(c, table, es), fs, key, lo, hi)
    decreases |es|
  {
    if es == [] {
      assert es + fs == fs;
    } else {
      assert (es + fs)[1..] == es[1..] + fs;
      EventsAppend(c, ApiRateLimit.Apply(c, table, es[0]), es[1..], fs, key, lo, hi);
    }
  }

  lemma TimedAppend(es: seq<Event>, fs: seq<Event>, from: real, at: real)
    requires |es| <= 1 && WellTimed(from, es) && (es != [] ==> es[0].at == at) && from <= at && WellTimed(at, fs)
    ensures WellTimed(from, es + fs)
  {
    if es == [] {
      assert es + fs == fs;
    } else {
      assert (es + fs)[1..] == fs;
    }
  }

  function EndAt(from: real, es: seq<Step>): real
    decreases |es|
  {
    if es == [] then from else EndAt(es[0].at, es[1..])
  }

  lemma {:induction false} LiveKeepsBucket(c: Config, s: State, es: seq<Step>, pass: real, table: Table, key: string, now: real)
    requires Sane(s) && SameBucket(c, s, pass, table, key, now) && Ordered(now, es) && Live(c, s, es)
    ensures SameBucket(c, After(c, s, es), PassAfter(pass, es), ApplyAll(c, table, Whole(c, s, es, pass, key)), key, EndAt(now, es))
    decreases |es|
  {
    if es != [] {
      var e := es[0];
      var next, fs, later := Apply(c, s, e), WholeStep(s, e, pass, key), PassAfter(pass, [e]);
      assert Ordered(now, [e]);
      PassOfOne(pass, e);
      WholeStepMatches(c, s, e, pass, table, key, now, now, now);
      LiveKeepsBucket(c, next, es[1..], later, ApplyAll(c, table, fs), key, e.at);
      EventsAppend(c, table, fs, Whole(c, next, es[1..], later, key), key, now, now);
    }
  }

  /** The critical sections of a live run add up to whole calls: it admits what a
      run of the limiter's table admits. */
  lemma {:induction false} LiveIsWhole(c: Config, s: State, es: seq<Step>, pass: real, table: Table, key: string,
                                       now: real, lo: real, hi: real)
    requires Sane(s) && SameBucket(c, s, pass, table, key, now) && Ordered(now, es) && Live(c, s, es)
    ensures WellTimed(now, Whole(c, s, es, pass, key))
    ensures ApiRateLimit.Admitted(c, table, Whole(c, s, es, pass, key), key, lo, hi) == Admitted(c, s, es, lo, hi)
    decreases |es|
  {
    if es != [] {
      var e := es[0];
      var next, fs, later := Apply(c, s, e), WholeStep(s, e, pass, key), PassAfter(pass, [e]);
      assert Ordered(now, [e]);
      WholeStepMatches(c, s, e, pass, table, key, now, lo, hi);
      LiveIsWhole(c, next, es[1..], later, ApplyAll(c, table, fs), key, e.at, lo, hi);
      var rest := Whole(c, next, es[1..], later, key);
      EventsAppend(c, table, fs, rest, key, lo, hi);
      TimedAppend(fs, rest, now, e.at);
    }
  }

  lemma {:induction false} BurstLive(c: Config, s: State, n: nat, at: real)
    requires c.Legal() && Sane(s) && !s.doomed && 0 !in s.held
    ensures Live(c, s, Burst(n, at))
    decreases n
  {
    if n > 0 {
      var es := Burst(n, at);
      assert es[0] == Find(0, at) && es[1..][0] == Take(0, at) && es[1..][1..] == Burst(n - 1, at);
      BurstLive(c, Apply(c, Apply(c, s, Find(0, at)), Take(0, at)), n - 1, at);
    }
  }

  /** In every live run the calls admitted in an interval never exceed burst + T. */
  ghost predicate LiveBounded(c: Config) {
    forall start, es, lo, hi :: Ordered(start, es) && Live(c, INITIAL, es) && lo <= hi ==>
      Admitted(c, INITIAL, es, lo, hi) as real <= c.burst as real + (hi - lo)
  }

  /** A burst at 0 has drained the bucket. */
  lemma DrainedAtZero(c: Config) returns (s: State)
    requires c.Legal()
    ensures s == After(c, INITIAL, Burst(c.burst, 0.0)) == State([TB.Bucket(0.0, 0.0)], Some(0), map[], false)
    ensures Admitted(c, INITIAL, Burst(c.burst, 0.0), 0.0, 0.0) == c.burst
    ensures Spans(0.0, Burst(c.burst, 0.0), 0.0) && Live(c, INITIAL, Burst(c.burst, 0.0))
  {
    s := After(c, INITIAL, Burst(c.burst, 0.0));
    BurstAdmitted(c, INITIAL, c.burst, 0.0, 0.0, 0.0);
    BurstLive(c, INITIAL, c.burst, 0.0);
    assert s.made == [TB.Bucket(0.0, 0.0)];
  }

  /** A burst, a whole visit of the cleanup, and a second burst. */
  lemma LiveBursts(c: Config, t: real) returns (es: seq<Step>)
    requires c.Legal() && c.IdleLimit() < t && t > 0.0
    ensures Ordered(0.0, es) && Live(c, INITIAL, es) && Admitted(c, INITIAL, es, 0.0, t) == 2 * c.burst
  {
    var first, second := Burst(c.burst, 0.0), Burst(c.burst, t);
    var rest := [Inspect(t, t)] + ([Delete(t)] + second);
    es := first + rest;
    var s := DrainedAtZero(c);
    BurstAdmitted(c, INITIAL, c.burst, 0.0, 0.0, t);
    var inspected := Apply(c, s, Inspect(t, t));
    var deleted := Apply(c, inspected, Delete(t));
    BurstAdmitted(c, deleted, c.burst, t, 0.0, t);
    BurstLive(c, deleted, c.burst, t);
    assert rest[0] == Inspect(t, t) && rest[1..] == [Delete(t)] + second;
    assert rest[1..][0] == Delete(t) && rest[1..][1..] == second;
    AfterAppend(c, INITIAL, first, rest, 0.0, t);
    LiveAppend(c, INITIAL, first, rest);
    Stretch(0.0, first, 0.0, t);
    SpansAppend(0.0, first, t, rest, t);
    SpansOrdered(0.0, es, t);
  }

  /** The bound burst + T holds of every live run exactly when idle buckets refill
      before they may be deleted, as for whole calls. */
  lemma LiveBoundedIff(c: Config)
    requires c.Legal()
    ensures LiveBounded(c) <==> c.RefillsBeforeCleanup()
  {
    if c.RefillsBeforeCleanup() {
      forall start, es, lo, hi | Ordered(start, es) && Live(c, INITIAL, es) && lo <= hi
        ensures Admitted(c, INITIAL, es, lo, hi) as real <= c.burst as real + (hi - lo)
      {
        LiveIsWhole(c, INITIAL, es, start, NO_BUCKETS, "k", start, lo, hi);
        RateStaysBounded(c, start, Whole(c, INITIAL, es, start, "k"), "k", lo, hi);
      }
    } else {
      var t := EarlyEviction(c);
      var es := LiveBursts(c, t);
      assert !(Admitted(c, INITIAL, es, 0.0, t) as real <= c.burst as real + (t - 0.0));
    }
  }

  // ---- what is deleted, between critical sections -----------------------

  lemma {:induction false} RunKeepsAllSound(c: Config, s: State, es: seq<Step>, now: real)
    requires c.Legal() && Sane(s) && AllSound(c, s.made, now) && Ordered(now, es)
    ensures AllSound(c, After(c, s, es).made, EndAt(now, es))
    decreases |es|
  {
    if es != [] {
      assert Ordered(now, [es[0]]);
      NextEvictionStep(c, s, es[0], now);
      RunKeepsAllSound(c, Apply(c, s, es[0]), es[1..], es[0].at);
    }
  }

  lemma {:induction false} OrderedSplit(from: real, es: seq<Step>, fs: seq<Step>)
    requires Ordered(from, es + fs)
    ensures Ordered(from, es) && Ordered(EndAt(from, es), fs)
    decreases |es|
  {
    if es == [] {
      assert es + fs == fs;
    } else {
      assert (es + fs)[0] == es[0] && (es + fs)[1..] == es[1..] + fs;
      OrderedSplit(es[0].at, es[1..], fs);
    }
  }

  /** The bucket that a deletion at `at` takes out of the table is full by then. */
  predicate EvictsFull(c: Config, s: State, at: real)
    requires Sane(s)
  {
    s.doomed ==> TB.Refill(c.burst, s.made[s.current.value], at) == c.burst as real
  }

  /** In every run, or in every live one, only full buckets are deleted. */
  ghost predicate OnlyFullEvicted(c: Config, live: bool) {
    forall start, es, at :: Ordered(start, es + [Delete(at)]) && (live ==> Live(c, INITIAL, es)) ==>
      EvictsFull(c, After(c, INITIAL, es), at)
  }

  lemma LiveEvictsFull(c: Config, start: real, es: seq<Step>, at: real)
    requires c.Legal() && c.RefillsBeforeCleanup() && Ordered(start, es + [Delete(at)]) && Live(c, INITIAL, es)
    ensures EvictsFull(c, After(c, INITIAL, es), at)
  {
    OrderedSplit(start, es, [Delete(at)]);
    LiveKeepsBucket(c, INITIAL, es, start, NO_BUCKETS, "k", start);
    RunKeepsAllSound(c, INITIAL, es, start);
  }

  /** Inspected when full, drained by a burst, and then deleted. */
  function DrainBeforeDelete(c: Config, t: real): seq<Step>
    requires c.Legal()
  {
    Idle(c, 0) + ([Inspect(t, t)] + Burst(c.burst, t))
  }

  lemma DrainedBeforeDelete(c: Config) returns (t: real, s: State)
    requires c.Legal()
    ensures s == After(c, INITIAL, DrainBeforeDelete(c, t)) == State([TB.Bucket(0.0, t)], Some(0), map[], true)
    ensures Spans(0.0, DrainBeforeDelete(c, t), t)
  {
    t := Clock(c, 0) + Gap(c);
    var burst := Burst(c.burst, t);
    var idle := AfterIdle(c, 0);
    IdleReached(c, 0);
    AfterIdlePoised(c, 0);
    var inspected := Apply(c, idle, Inspect(t, t));
    BurstAdmitted(c, inspected, c.burst, t, t, t);
    StepThen(c, idle, Inspect(t, t), burst, t, t);
    Stretch(0.0, Idle(c, 0), Clock(c, 0), t);
    Then(c, INITIAL, Idle(c, 0), idle, [Inspect(t, t)] + burst, 0.0, t, t);
    s := After(c, INITIAL, DrainBeforeDelete(c, t));
    assert s.made == [TB.Bucket(0.0, t)];
  }

  /** Between critical sections buckets in use are deleted under every setting; in
      live runs only full ones are, exactly when they refill in time. */
  lemma OnlyFullEvictedIff(c: Config, live: bool)
    requires c.Legal()
    ensures OnlyFullEvicted(c, live) <==> live && c.RefillsBeforeCleanup()
  {
    if live && c.RefillsBeforeCleanup() {
      forall start, es, at | Ordered(start, es + [Delete(at)]) && Live(c, INITIAL, es)
        ensures EvictsFull(c, After(c, INITIAL, es), at)
      {
        LiveEvictsFull(c, start, es, at);
      }
    } else if !live {
      var t, s := DrainedBeforeDelete(c);
      SpansAppend(0.0, DrainBeforeDelete(c, t), t, [Delete(t)], t);
      SpansOrdered(0.0, DrainBeforeDelete(c, t) + [Delete(t)], t);
      assert !EvictsFull(c, s, t);
    } else {
      var t := EarlyEviction(c);
      EarlyEvictionDrained(c, t);
    }
  }

  lemma EarlyEvictionDrained(c: Config, t: real)
    requires c.Legal() && c.IdleLimit() < t < c.burst as real && t > 0.0
    ensures !OnlyFullEvicted(c, true)
  {
    var s := DrainedAtZero(c);
    var burst := Burst(c.burst, 0.0);
    var es := burst + ([Inspect(t, t)] + []);
    StepThen(c, s, Inspect(t, t), [], 0.0, t);
    Then(c, INITIAL, burst, s, [Inspect(t, t)] + [], 0.0, 0.0, t);
    LiveAppend(c, INITIAL, burst, [Inspect(t, t)] + []);
    SpansAppend(0.0, es, t, [Delete(t)], t);
    SpansOrdered(0.0, es + [Delete(t)], t);
    assert !EvictsFull(c, After(c, INITIAL, es), t);
  }

  // ---- Retry-After, between critical sections ---------------------------

  predicate TakesBefore(es: seq<Step>, moment: real) {
    forall i :: 0 <= i < |es| && es[i].Take? ==> es[i].at < moment
  }

  /** When the bucket that refused a call at `now` holds a whole token again. */
  function Moment(c: Config, s: State, call: nat, now: real): real
    requires Sane(s) && call in s.held
  {
    RefillMoment(AfterTake(c, s, call, now).made[s.held[call]])
  }

  /** The call is refused at `now`, and the steps `fs` follow. */
  predicate RefusedThen(c: Config, start: real, es: seq<Step>, call: nat, now: real, fs: seq<Step>, live: bool) {
    var s := After(c, INITIAL, es);
    && Ordered(start, es + ([Take(call, now)] + fs))
    && call in s.held && !Admits(c, s, Take(call, now)) && TakesBefore(fs, Moment(c, s, call, now))
    && (live ==> Live(c, INITIAL, es + ([Take(call, now)] + fs)))
  }

  /** After a refusal no call that comes before the refill moment is admitted, in
      every run or in every live one. */
  ghost predicate PromiseKept(c: Config, live: bool) {
    forall start, es, call, now, fs :: RefusedThen(c, start, es, call, now, fs, live) ==>
      var s := After(c, INITIAL, es);
      Admitted(c, AfterTake(c, s, call, now), fs, now, Moment(c, s, call, now)) == 0
  }

  lemma {:induction false} RefusedCountNone(c: Config, table: Table, es: seq<Event>, key: string, lo: real, hi: real)
    requires AllRefused(Answers(c, table, es, key))
    ensures ApiRateLimit.Admitted(c, table, es, key, lo, hi) == 0
    decreases |es|
  {
    if es != [] {
      var answers := Answers(c, table, es, key);
      var rest := Answers(c, ApiRateLimit.Apply(c, table, es[0]), es[1..], key);
      if CallTo(es[0], key) {
        assert answers[0] == Allowed(c, table, key, es[0].at) && answers[1..] == rest;
        assert forall i :: 0 <= i < |rest| ==> rest[i] == answers[i + 1];
      }
      RefusedCountNone(c, ApiRateLimit.Apply(c, table, es[0]), es[1..], key, lo, hi);
    }
  }

  lemma {:induction false} WholeCallsBefore(c: Config, s: State, es: seq<Step>, pass: real, key: string, moment: real)
    requires Sane(s) && TakesBefore(es, moment)
    ensures CallsBefore(Whole(c, s, es, pass, key), key, moment)
    decreases |es|
  {
    if es != [] {
      WholeCallsBefore(c, Apply(c, s, es[0]), es[1..], PassAfter(pass, [es[0]]), key, moment);
    }
  }

  /** From a refusal on, in a live run. */
  lemma LiveRefused(c: Config, s: State, table: Table, pass: real, now: real, fs: seq<Step>)
    requires c.Legal() && 1.0 <= c.IdleLimit() && Sane(s) && SameBucket(c, s, pass, table, "k", now)
    requires s.current.Some? && Refused(c, table, "k", now)
    requires Ordered(now, fs) && Live(c, s, fs) && TakesBefore(fs, RefillMoment(table["k"]))
    ensures Admitted(c, s, fs, now, RefillMoment(table["k"])) == 0
  {
    var moment := RefillMoment(table["k"]);
    var whole := Whole(c, s, fs, pass, "k");
    LiveIsWhole(c, s, fs, pass, table, "k", now, now, moment);
    WholeCallsBefore(c, s, fs, pass, "k", moment);
    var end := TimedThenLater(whole, now, "k");
    WaitsUntilRefill(c, table, "k", moment, now, whole, end);
    RefusedCountNone(c, table, whole, "k", now, moment);
  }

  lemma LivePromise(c: Config, start: real, es: seq<Step>, call: nat, now: real, fs: seq<Step>)
    requires c.Legal() && 1.0 <= c.IdleLimit() && RefusedThen(c, start, es, call, now, fs, true)
    ensures var s := After(c, INITIAL, es);
      Admitted(c, AfterTake(c, s, call, now), fs, now, Moment(c, s, call, now)) == 0
  {
    var s, take := After(c, INITIAL, es), [Take(call, now)] + fs;
    assert take[0] == Take(call, now) && take[1..] == fs;
    LiveAppend(c, INITIAL, es, take);
    OrderedSplit(start, es, take);
    LiveKeepsBucket(c, INITIAL, es, start, NO_BUCKETS, "k", start);
    RunKeepsAllSound(c, INITIAL, es, start);
    var pass, table := PassAfter(start, es), ApplyAll(c, NO_BUCKETS, Whole(c, INITIAL, es, start, "k"));
    var end := EndAt(start, es);
    assert Ordered(end, [Take(call, now)]);
    WholeStepMatches(c, s, Take(call, now), pass, table, "k", end, now, now);
    PassOfOne(pass, Take(call, now));
    var after := AfterAllow(c, table, "k", now);
    assert [Call("k", now)][1..] == [];
    assert ApplyAll(c, table, [Call("k", now)]) == after;
    LiveRefused(c, AfterTake(c, s, call, now), after, pass, now, fs);
  }

  /** One more call after the burst that drained a condemned bucket is refused, and
      the next, after the deletion, admitted at the same moment. */
  lemma RefusedAndAdmitted(c: Config)
    requires c.Legal()
    ensures !PromiseKept(c, false)
  {
    var t, s := DrainedBeforeDelete(c);
    var drain := DrainBeforeDelete(c, t);
    var es := drain + ([Find(1, t)] + []);
    StepThen(c, s, Find(1, t), [], t, t);
    Then(c, INITIAL, drain, s, [Find(1, t)] + [], 0.0, t, t);
    var found := Apply(c, s, Find(1, t));
    DeleteAndCallAdmits(c, AfterTake(c, found, 1, t), t, t, t + 1.0);
    BreaksPromise(c, es, found, 1, t, DeleteAndCall(t), t, false);
  }

  /** The bucket is deleted before it has a token, and the next call gets a new one. */
  function DeleteAndCall(t: real): seq<Step> {
    [Delete(t)] + ([Find(2, t)] + ([Take(2, t)] + []))
  }

  lemma Head(c: Config, s: State, e: Step, rest: seq<Step>, lo: real, hi: real, from: real, to: real)
    requires Sane(s)
    ensures Admitted(c, s, [e] + rest, lo, hi)
      == (if Admits(c, s, e) && lo <= e.at <= hi then 1 else 0) + Admitted(c, Apply(c, s, e), rest, lo, hi)
    ensures Live(c, s, [e] + rest) <==> TakesLive(s, e) && Live(c, Apply(c, s, e), rest)
    ensures Spans(from, [e] + rest, to)
      <==> from <= e.at && (e.Inspect? ==> e.passTime <= e.at) && Spans(e.at, rest, to)
  {
    assert ([e] + rest)[0] == e && ([e] + rest)[1..] == rest;
  }

  lemma DeleteAndCallAdmits(c: Config, s: State, lo: real, t: real, hi: real)
    requires c.Legal() && Sane(s) && s.doomed && 2 !in s.held && lo <= t <= hi
    ensures Admitted(c, s, DeleteAndCall(t), lo, hi) == 1
    ensures Live(c, s, DeleteAndCall(t)) && Spans(t, DeleteAndCall(t), t)
  {
    var deleted := Apply(c, s, Delete(t));
    var found := Apply(c, deleted, Find(2, t));
    assert Admits(c, found, Take(2, t));
    Head(c, found, Take(2, t), [], lo, hi, t, t);
    Head(c, deleted, Find(2, t), [Take(2, t)] + [], lo, hi, t, t);
    Head(c, s, Delete(t), [Find(2, t)] + ([Take(2, t)] + []), lo, hi, t, t);
  }

  /** A refusal by an empty bucket at `now`, and then steps that admit a call
      less than one token later. */
  lemma BreaksPromise(c: Config, es: seq<Step>, s: State, call: nat, now: real, fs: seq<Step>, t: real, live: bool)
    requires c.Legal() && s == After(c, INITIAL, es) && Spans(0.0, es, now) && Spans(now, fs, t) && t < now + 1.0
    requires call in s.held && s.made[s.held[call]] == TB.Bucket(0.0, now) && TakesBefore(fs, now + 1.0)
    requires Admitted(c, AfterTake(c, s, call, now), fs, now, now + 1.0) > 0
    requires live ==> Live(c, INITIAL, es) && TakesLive(s, Take(call, now)) && Live(c, AfterTake(c, s, call, now), fs)
    ensures !PromiseKept(c, live)
  {
    var take := [Take(call, now)] + fs;
    assert Moment(c, s, call, now) == now + 1.0;
    Head(c, s, Take(call, now), fs, now, t, now, t);
    LiveAppend(c, INITIAL, es, take);
    SpansAppend(0.0, es, now, take, t);
    SpansOrdered(0.0, es + take, t);
    assert RefusedThen(c, 0.0, es, call, now, fs, live);
  }

  /** With an idle limit short of one token even a live run does it. */
  lemma EarlyDeletionBreaksPromise(c: Config)
    requires c.Legal() && c.IdleLimit() < 1.0
    ensures !PromiseKept(c, true)
  {
    var t := (c.IdleLimit() + 1.0) / 2.0;
    assert c.IdleLimit() > 0.0;
    var s := DrainedAtZero(c);
    var burst, find, tail := Burst(c.burst, 0.0), [Find(1, 0.0)] + [], DeleteAndCall(t);
    StepThen(c, s, Find(1, 0.0), [], 0.0, 0.0);
    Then(c, INITIAL, burst, s, find, 0.0, 0.0, 0.0);
    LiveAppend(c, INITIAL, burst, find);
    var found := Apply(c, s, Find(1, 0.0));
    assert AfterTake(c, found, 1, 0.0) == s;
    DeleteAndCallAdmits(c, Apply(c, s, Inspect(t, t)), 0.0, t, 1.0);
    Head(c, s, Inspect(t, t), tail, 0.0, 1.0, 0.0, t);
    BreaksPromise(c, burst + find, found, 1, 0.0, [Inspect(t, t)] + tail, t, true);
  }

  /** The promise of Retry-After is kept in every interleaving under no setting; in
      every live run, exactly when a token is regained within the idle limit. */
  lemma PromiseKeptIff(c: Config, live: bool)
    requires c.Legal()
    ensures PromiseKept(c, live) <==> live && 1.0 <= c.IdleLimit()
  {
    if !live {
      RefusedAndAdmitted(c);
    } else if 1.0 <= c.IdleLimit() {
      forall start, es, call, now, fs | RefusedThen(c, start, es, call, now, fs, true)
        ensures var s := After(c, INITIAL, es);
          Admitted(c, AfterTake(c, s, call, now), fs, now, Moment(c, s, call, now)) == 0
      {
        LivePromise(c, start, es, call, now, fs);
      }
    } else {
      EarlyDeletionBreaksPromise(c);
    }
  }
}
