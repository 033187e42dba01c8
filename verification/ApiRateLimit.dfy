/**
  The per-key rate limiter of the HTTPS API (internal/api/ratelimit.go).

  The class works in seconds and tokens per second, as the source does.  Its
  abstract contents, and the runs below, read the clock in tokens (seconds times
  the rate, see TokenBucket), so T seconds of a run are rate * T on its clock.
  A run is a sequence of calls, Retry-After queries and delete steps of the
  cleanup goroutine, over any number of keys.
*/
module ApiRateLimit {
  import TB = TokenBucket

  datatype Config = Config(rate: real, burst: int, cleanup: real) {
    predicate Legal() {
      rate > 0.0 && burst >= 1 && cleanup > 0.0
    }

    /** How long, on the clock in tokens, a bucket may idle before a cleanup deletes it. */
    function IdleLimit(): real {
      2.0 * cleanup * rate
    }

    /** An idle bucket is full again before the cleanup may delete it. */
    predicate RefillsBeforeCleanup() {
      burst as real <= IdleLimit()
    }
  }

  const TEN_MINUTES := 600.0

  /** The settings NewRateLimiter makes out of its arguments. */
  function NewConfig(ratePerMinute: real, burst: int): (c: Config)
    ensures c.Legal() && c.cleanup == 600.0
    ensures c.rate * 60.0 == if ratePerMinute > 0.0 then ratePerMinute else 60.0
    ensures c.burst == if burst > 0 then burst else 10
  {
    Config((if ratePerMinute <= 0.0 then 60.0 else ratePerMinute) / 60.0,
           if burst <= 0 then 10 else burst,
           TEN_MINUTES)
  }

  type Table = map<string, TB.Bucket>

  const NO_BUCKETS: Table := map[]

  // ---- one step ---------------------------------------------------------

  function GetBucket(c: Config, table: Table, key: string, now: real): TB.Bucket {
    if key in table then table[key] else TB.Full(c.burst, now)
  }

  predicate Allowed(c: Config, table: Table, key: string, now: real) {
    TB.Admits(c.burst, GetBucket(c, table, key, now), now)
  }

  function AfterAllow(c: Config, table: Table, key: string, now: real): Table {
    table[key := TB.AfterCall(c.burst, GetBucket(c, table, key, now), now)]
  }

  /** RetryAfter reads the bucket without crediting time, but creates it when missing. */
  function AfterRetryAfter(c: Config, table: Table, key: string, now: real): Table {
    table[key := GetBucket(c, table, key, now)]
  }

  /** Milliseconds, truncated as the conversion to a Duration does. */
  function RetryAfterMillis(c: Config, tokens: real): int
    requires c.Legal()
  {
    if tokens >= 1.0 then 0 else ((1.0 - tokens) / c.rate * 1000.0).Floor
  }

  predicate Stale(c: Config, b: TB.Bucket, passTime: real) {
    passTime - b.last > c.IdleLimit()
  }

  function AfterSweep(c: Config, table: Table, key: string, passTime: real): Table {
    if key in table && Stale(c, table[key], passTime) then table - {key} else table
  }

  /** The clock in tokens at `seconds`. */
  function Reading(seconds: real, rate: real): real {
    seconds * rate
  }

  lemma UpdatedTwice<K, V>(m: map<K, V>, k: K, v: V, w: V)
    ensures m[k := v][k := w] == m[k := w]
  {
  }

  // ---- the limiter itself, in seconds ------------------------------------

  class Bucket {
    var tokens: real
    const maxBurst: int
    const rate: real
    var lastTime: real

    constructor (c: Config, now: real)
      ensures tokens == c.burst as real && lastTime == now && maxBurst == c.burst && rate == c.rate
    {
      tokens := c.burst as real;
      maxBurst := c.burst;
      rate := c.rate;
      lastTime := now;
    }

    function State(): TB.Bucket
      reads this
    {
      TB.Bucket(tokens, Reading(lastTime, rate))
    }

    /** Credits the time since the last call and takes a token if there is one. */
    method Take(now: real) returns (ok: bool)
      modifies this
      ensures ok == TB.Admits(maxBurst, old(State()), Reading(now, rate))
      ensures State() == TB.AfterCall(maxBurst, old(State()), Reading(now, rate))
      ensures var credited := old(tokens) + (now - old(lastTime)) * rate;
        var level := if credited > maxBurst as real then maxBurst as real else credited;
        ok == (level >= 1.0) && tokens == (if ok then level - 1.0 else level) && lastTime == now
    {
      var elapsed := now - lastTime;
      Elapsed(lastTime, now, rate);
      ghost var credited := tokens + Reading(now, rate) - Reading(lastTime, rate);
      lastTime := now;
      tokens := tokens + elapsed * rate;
      assert tokens == credited;
      if tokens > maxBurst as real {
        tokens := maxBurst as real;
      }
      ok := tokens >= 1.0;
      if ok {
        tokens := tokens - 1.0;
      }
    }
  }

  lemma Elapsed(since: real, now: real, rate: real)
    ensures (now - since) * rate == Reading(now, rate) - Reading(since, rate)
  {
  }

  lemma IdleInTokens(since: real, now: real, limit: real, rate: real)
    requires rate > 0.0
    ensures now - since > limit <==> Reading(now, rate) - Reading(since, rate) > limit * rate
  {
    Elapsed(since, now, rate);
    var idle := now - since;
    assert idle > limit ==> (idle - limit) * rate > 0.0;
    assert idle <= limit ==> (limit - idle) * rate >= 0.0;
  }

  class RateLimiter {
    const config: Config
    var buckets: map<string, Bucket>

    ghost predicate Valid()
      reads this, buckets.Values
    {
      && config.Legal()
      && (forall k :: k in buckets ==> buckets[k].maxBurst == config.burst && buckets[k].rate == config.rate)
      && (forall k, l :: k in buckets && l in buckets && k != l ==> buckets[k] != buckets[l])
    }

    ghost function Contents(): Table
      reads this, buckets.Values
    {
      map k | k in buckets :: buckets[k].State()
    }

    constructor (ratePerMinute: real, burst: int)
      ensures Valid() && config == NewConfig(ratePerMinute, burst) && Contents() == NO_BUCKETS
    {
      config := NewConfig(ratePerMinute, burst);
      buckets := map[];
    }

    /** Returns the bucket of `key`, creating a full one when there is none. */
    method getBucket(key: string, now: real) returns (b: Bucket)
      requires Valid()
      modifies this
      ensures Valid()
      ensures buckets == old(buckets)[key := b]
      ensures key in old(buckets) ==> b == old(buckets)[key]
      ensures key !in old(buckets) ==> fresh(b)
      ensures b.State() == GetBucket(config, old(Contents()), key, Reading(now, config.rate))
      ensures Contents() == old(Contents())[key := b.State()]
    {
      if key in buckets {
        b := buckets[key];
        return;
      }
      b := new Bucket(config, now);
      buckets := buckets[key := b];
    }

    method Allow(key: string, now: real) returns (ok: bool)
      requires Valid()
      modifies this, buckets.Values
      ensures Valid()
      ensures ok == Allowed(config, old(Contents()), key, Reading(now, config.rate))
      ensures Contents() == AfterAllow(config, old(Contents()), key, Reading(now, config.rate))
    {
      var b := getBucket(key, now);
      ghost var found := b.State();
      label Found:
      ok := b.Take(now);
      OnlyOneChanged@Found(key);
      UpdatedTwice(old(Contents()), key, found, b.State());
    }

    /** Changing the bucket of one key changes that entry of the contents and no other. */
    twostate lemma OnlyOneChanged(key: string)
      requires buckets == old(buckets) && key in buckets
      requires forall k :: k in buckets && k != key ==> buckets[k] != buckets[key] && unchanged(buckets[k])
      ensures Contents() == old(Contents())[key := buckets[key].State()]
    {
      forall k | k in buckets && k != key
        ensures Contents()[k] == old(Contents())[k]
      {
        assert unchanged(buckets[k]);
      }
    }

    method RetryAfter(key: string, now: real) returns (millis: int)
      requires Valid()
      modifies this
      ensures Valid()
      ensures Contents() == AfterRetryAfter(config, old(Contents()), key, Reading(now, config.rate))
      ensures millis == RetryAfterMillis(config, Contents()[key].tokens)
      ensures key in old(buckets) ==> buckets == old(buckets) && millis == RetryAfterMillis(config, old(buckets[key].tokens))
      ensures key !in old(buckets) ==> millis == 0
    {
      var b := getBucket(key, now);
      if b.tokens >= 1.0 {
        return 0;
      }
      var needed := 1.0 - b.tokens;
      millis := (needed / b.rate * 1000.0).Floor;
    }

    /** One iteration of the cleanup goroutine's range over the table. */
    method Sweep(key: string, passTime: real)
      requires Valid()
      modifies this
      ensures Valid()
      ensures Contents() == AfterSweep(config, old(Contents()), key, Reading(passTime, config.rate))
      ensures key in old(buckets) ==>
          (key !in buckets <==> passTime - old(buckets[key].lastTime) > 2.0 * config.cleanup)
    {
      if key in buckets {
        IdleInTokens(buckets[key].lastTime, passTime, 2.0 * config.cleanup, config.rate);
        var idle := passTime - buckets[key].lastTime;
        if idle > 2.0 * config.cleanup {
          buckets := buckets - {key};
          assert Contents().Keys == old(Contents()).Keys - {key};
        }
      }
    }
  }

  // ---- runs -------------------------------------------------------------

  /** The delete step of the cleanup uses the clock reading `passTime` taken
      when its pass over the table began, which may be earlier than `at`. */
  datatype Event =
    | Call(key: string, at: real)
    | Ask(key: string, at: real)
    | Sweep(key: string, passTime: real, at: real)

  predicate WellTimed(from: real, es: seq<Event>)
    decreases |es|
  {
    es == [] ||
    (from <= es[0].at && (es[0].Sweep? ==> es[0].passTime <= es[0].at) && WellTimed(es[0].at, es[1..]))
  }

  function Apply(c: Config, table: Table, e: Event): Table {
    match e
    case Call(k, t) => AfterAllow(c, table, k, t)
    case Ask(k, t) => AfterRetryAfter(c, table, k, t)
    case Sweep(k, p, _) => AfterSweep(c, table, k, p)
  }

  function ApplyAll(c: Config, table: Table, es: seq<Event>): Table
    decreases |es|
  {
    if es == [] then table else ApplyAll(c, Apply(c, table, es[0]), es[1..])
  }

  predicate CallTo(e: Event, key: string) {
    e.Call? && e.key == key
  }

  /** The answers given to the calls for `key`, in order. */
  function Answers(c: Config, table: Table, es: seq<Event>, key: string): seq<bool>
    decreases |es|
  {
    if es == [] then []
    else if CallTo(es[0], key) then
      [Allowed(c, table, key, es[0].at)] + Answers(c, Apply(c, table, es[0]), es[1..], key)
    else Answers(c, Apply(c, table, es[0]), es[1..], key)
  }

  /** Calls for `key` admitted in [lo, hi]. */
  function Admitted(c: Config, table: Table, es: seq<Event>, key: string, lo: real, hi: real): nat
    decreases |es|
  {
    if es == [] then 0
    else
      var counts := CallTo(es[0], key) && lo <= es[0].at <= hi && Allowed(c, table, key, es[0].at);
      (if counts then 1 else 0) + Admitted(c, Apply(c, table, es[0]), es[1..], key, lo, hi)
  }

  /** The clock readings of the calls for `key`, in order. */
  function Times(es: seq<Event>, key: string): seq<real> {
    if es == [] then []
    else if CallTo(es[0], key) then [es[0].at] + Times(es[1..], key)
    else Times(es[1..], key)
  }

  /** The same run with a limiter that never evicts. */
  function NoSweeps(es: seq<Event>): seq<Event> {
    if es == [] then []
    else if es[0].Sweep? then NoSweeps(es[1..])
    else [es[0]] + NoSweeps(es[1..])
  }

  predicate HasNoSweep(es: seq<Event>) {
    forall i :: 0 <= i < |es| ==> !es[i].Sweep?
  }

  // ---- refinement of the per-key bucket --------------------------------

  /** The table and the undisturbed bucket `b` hold the same level for `key`. */
  predicate Agree(c: Config, table: Table, key: string, b: TB.Bucket, now: real) {
    var g := GetBucket(c, table, key, now);
    && TB.Sound(c.burst, g) && g.last <= now
    && TB.Sound(c.burst, b) && b.last <= now
    && TB.Refill(c.burst, g, now) == TB.Refill(c.burst, b, now)
  }

  lemma AgreeAfter(c: Config, table: Table, key: string, b: TB.Bucket, e: Event, now: real)
    requires c.Legal() && Agree(c, table, key, b, now) && WellTimed(now, [e])
    requires e.Sweep? ==> c.RefillsBeforeCleanup()
    ensures CallTo(e, key) ==> Allowed(c, table, key, e.at) == TB.Admits(c.burst, b, e.at)
    ensures Agree(c, Apply(c, table, e), key, if CallTo(e, key) then TB.AfterCall(c.burst, b, e.at) else b, e.at)
  {
  }

  /** What a key is answered depends on the times of its own calls alone. */
  lemma {:induction false} Refines(c: Config, table: Table, es: seq<Event>, key: string, b: TB.Bucket, now: real)
    requires c.Legal() && WellTimed(now, es) && Agree(c, table, key, b, now)
    requires c.RefillsBeforeCleanup() || HasNoSweep(es)
    ensures Answers(c, table, es, key) == TB.Ideal(c.burst, b, Times(es, key))
    decreases |es|
  {
    if es != [] {
      var e := es[0];
      var b1 := if CallTo(e, key) then TB.AfterCall(c.burst, b, e.at) else b;
      assert WellTimed(now, [e]);
      AgreeAfter(c, table, key, b, e, now);
      Refines(c, Apply(c, table, e), es[1..], key, b1, e.at);
      if CallTo(e, key) {
        assert Times(es, key)[1..] == Times(es[1..], key);
        assert Answers(c, table, es, key)[1..] == Answers(c, Apply(c, table, e), es[1..], key);
      }
    }
  }

  lemma {:induction false} TimesAreSorted(es: seq<Event>, key: string, from: real)
    requires WellTimed(from, es)
    ensures TB.Sorted(from, Times(es, key))
    decreases |es|
  {
    if es != [] {
      TimesAreSorted(es[1..], key, es[0].at);
      if CallTo(es[0], key) {
        assert Times(es, key)[1..] == Times(es[1..], key);
      }
    }
  }

  /** The count of admissions is read off the answers. */
  lemma {:induction false} CountIsOfAnswers(c: Config, table: Table, es: seq<Event>, key: string, lo: real, hi: real)
    ensures |Answers(c, table, es, key)| == |Times(es, key)|
    ensures Admitted(c, table, es, key, lo, hi)
      == TB.AdmittedIn(Answers(c, table, es, key), Times(es, key), lo, hi)
    decreases |es|
  {
    if es != [] {
      CountIsOfAnswers(c, Apply(c, table, es[0]), es[1..], key, lo, hi);
      if CallTo(es[0], key) {
        assert Times(es, key)[1..] == Times(es[1..], key);
        assert Answers(c, table, es, key)[1..] == Answers(c, Apply(c, table, es[0]), es[1..], key);
      }
    }
  }

  lemma {:induction false} DroppingSweeps(es: seq<Event>, key: string, from: real, later: real)
    requires from <= later && WellTimed(later, es)
    ensures WellTimed(from, NoSweeps(es)) && HasNoSweep(NoSweeps(es))
    ensures Times(NoSweeps(es), key) == Times(es, key)
    decreases |es|
  {
    if es != [] {
      var keep := !es[0].Sweep?;
      DroppingSweeps(es[1..], key, if keep then es[0].at else from, es[0].at);
      if keep {
        assert NoSweeps(es)[1..] == NoSweeps(es[1..]);
      }
    }
  }

  // ---- main results -----------------------------------------------------

  predicate SameWithoutSweeps(c: Config, es: seq<Event>, key: string) {
    Answers(c, NO_BUCKETS, es, key) == Answers(c, NO_BUCKETS, NoSweeps(es), key)
  }

  /** Every run answers every key exactly as a limiter that never evicts. */
  ghost predicate EvictionInvisible(c: Config) {
    forall start, es, key :: WellTimed(start, es) ==> SameWithoutSweeps(c, es, key)
  }

  /** In every run, for every key, the calls admitted in an interval of T on
      the clock never exceed burst + T. */
  ghost predicate RateBounded(c: Config) {
    forall start, es, key, lo, hi :: WellTimed(start, es) && lo <= hi ==>
      Admitted(c, NO_BUCKETS, es, key, lo, hi) as real <= c.burst as real + (hi - lo)
  }

  lemma EvictionStaysInvisible(c: Config, start: real, es: seq<Event>, key: string)
    requires c.Legal() && c.RefillsBeforeCleanup() && WellTimed(start, es)
    ensures SameWithoutSweeps(c, es, key)
  {
    DroppingSweeps(es, key, start, start);
    Refines(c, NO_BUCKETS, es, key, TB.Full(c.burst, start), start);
    Refines(c, NO_BUCKETS, NoSweeps(es), key, TB.Full(c.burst, start), start);
  }

  lemma RateStaysBounded(c: Config, start: real, es: seq<Event>, key: string, lo: real, hi: real)
    requires c.Legal() && WellTimed(start, es) && lo <= hi
    requires c.RefillsBeforeCleanup() || HasNoSweep(es)
    ensures Admitted(c, NO_BUCKETS, es, key, lo, hi) as real <= c.burst as real + (hi - lo)
  {
    Refines(c, NO_BUCKETS, es, key, TB.Full(c.burst, start), start);
    CountIsOfAnswers(c, NO_BUCKETS, es, key, lo, hi);
    TimesAreSorted(es, key, start);
    TB.WindowBound(c.burst, TB.Full(c.burst, start), Times(es, key), lo, hi);
  }

  /** Call `i` for a key is refused only when admitting it would break the bound
      for some window that ends with it, whatever other keys and cleanups do. */
  lemma RefusesOnlyToKeepTheBound(c: Config, start: real, es: seq<Event>, key: string, i: nat)
    requires c.Legal() && c.RefillsBeforeCleanup() && WellTimed(start, es)
    requires i < |Times(es, key)|
    ensures |Answers(c, NO_BUCKETS, es, key)| == |Times(es, key)|
    ensures Answers(c, NO_BUCKETS, es, key)[i] <==>
      forall j: nat :: j <= i ==> TB.RoomFor(c.burst, Times(es, key), Answers(c, NO_BUCKETS, es, key), j, i)
  {
    Refines(c, NO_BUCKETS, es, key, TB.Full(c.burst, start), start);
    TimesAreSorted(es, key, start);
    TB.AdmitsIffBoundKept(c.burst, start, Times(es, key), i);
  }

  // A burst at 0, a cleanup at `t`, and a second burst at `t`.

  function BurstOf(n: nat, t: real): (es: seq<Event>)
    ensures |es| == n && forall i :: 0 <= i < n ==> es[i] == Call("k", t)
  {
    if n == 0 then [] else [Call("k", t)] + BurstOf(n - 1, t)
  }

  function TwoBursts(burst: nat, t: real): seq<Event> {
    BurstOf(burst, 0.0) + ([Sweep("k", t, t)] + BurstOf(burst, t))
  }

  lemma {:induction false} BurstIsWellTimed(n: nat, t: real, from: real, rest: seq<Event>)
    requires from <= t && WellTimed(t, rest)
    ensures WellTimed(from, BurstOf(n, t) + rest)
  {
    if n == 0 {
      assert BurstOf(n, t) + rest == rest;
    } else {
      BurstIsWellTimed(n - 1, t, t, rest);
      assert (BurstOf(n, t) + rest)[1..] == BurstOf(n - 1, t) + rest;
    }
  }

  lemma CallAdmitted(c: Config, table: Table, level: real, t: real, rest: seq<Event>, lo: real, hi: real)
    requires c.Legal() && lo <= t <= hi
    requires TB.Refill(c.burst, GetBucket(c, table, "k", t), t) == level >= 1.0
    ensures Admitted(c, table, [Call("k", t)] + rest, "k", lo, hi)
      == 1 + Admitted(c, table["k" := TB.Bucket(level - 1.0, t)], rest, "k", lo, hi)
  {
    var es := [Call("k", t)] + rest;
    assert es[0] == Call("k", t) && es[1..] == rest;
    assert AfterAllow(c, table, "k", t) == table["k" := TB.Bucket(level - 1.0, t)];
  }

  /** A burst no larger than the level is admitted in full. */
  lemma {:induction false} BurstAdmitted(c: Config, table: Table, level: real, n: nat, t: real, rest: seq<Event>,
                                         lo: real, hi: real)
    requires c.Legal() && lo <= t <= hi && n > 0
    requires TB.Refill(c.burst, GetBucket(c, table, "k", t), t) == level >= n as real
    ensures Admitted(c, table, BurstOf(n, t) + rest, "k", lo, hi)
      == n + Admitted(c, table["k" := TB.Bucket(level - n as real, t)], rest, "k", lo, hi)
    decreases n
  {
    var after := BurstOf(n - 1, t) + rest;
    assert BurstOf(n, t) + rest == [Call("k", t)] + after;
    CallAdmitted(c, table, level, t, after, lo, hi);
    if n == 1 {
      assert after == rest;
    } else {
      var next := table["k" := TB.Bucket(level - 1.0, t)];
      BurstAdmitted(c, next, level - 1.0, n - 1, t, rest, lo, hi);
      UpdatedTwice(table, "k", TB.Bucket(level - 1.0, t), TB.Bucket(level - n as real, t));
    }
  }

  /** When a bucket can be deleted before it is full, both promises fail on this run. */
  lemma TwoBurstsAdmitTwice(c: Config, t: real)
    requires c.Legal() && c.IdleLimit() < t && t > 0.0
    ensures WellTimed(0.0, TwoBursts(c.burst, t))
    ensures Admitted(c, NO_BUCKETS, TwoBursts(c.burst, t), "k", 0.0, t) == 2 * c.burst
  {
    var second := BurstOf(c.burst, t) + [];
    assert second == BurstOf(c.burst, t);
    BurstIsWellTimed(c.burst, t, t, []);
    var tail := [Sweep("k", t, t)] + second;
    assert tail[1..] == second;
    assert WellTimed(0.0, tail);
    BurstIsWellTimed(c.burst, 0.0, 0.0, tail);
    BurstAdmitted(c, NO_BUCKETS, c.burst as real, c.burst, 0.0, tail, 0.0, t);
    var drained: Table := map["k" := TB.Bucket(0.0, 0.0)];
    assert NO_BUCKETS["k" := TB.Bucket(0.0, 0.0)] == drained;
    assert Apply(c, drained, tail[0]) == NO_BUCKETS;
    BurstAdmitted(c, NO_BUCKETS, c.burst as real, c.burst, t, [], 0.0, t);
  }

  /** Evicting idle buckets is invisible exactly when they refill in time. */
  lemma EvictionInvisibleIff(c: Config)
    requires c.Legal()
    ensures EvictionInvisible(c) <==> c.RefillsBeforeCleanup()
  {
    if c.RefillsBeforeCleanup() {
      forall start, es, key | WellTimed(start, es)
        ensures SameWithoutSweeps(c, es, key)
      {
        EvictionStaysInvisible(c, start, es, key);
      }
    } else {
      var t := EarlyEviction(c);
      var es := TwoBursts(c.burst, t);
      DroppingSweeps(es, "k", 0.0, 0.0);
      RateStaysBounded(c, 0.0, NoSweeps(es), "k", 0.0, t);
      if EvictionInvisible(c) {
        assert SameWithoutSweeps(c, es, "k");
        CountIsOfAnswers(c, NO_BUCKETS, es, "k", 0.0, t);
        CountIsOfAnswers(c, NO_BUCKETS, NoSweeps(es), "k", 0.0, t);
      }
    }
  }

  lemma EarlyEviction(c: Config) returns (t: real)
    requires c.Legal() && !c.RefillsBeforeCleanup()
    ensures c.IdleLimit() < t < c.burst as real && t > 0.0
    ensures WellTimed(0.0, TwoBursts(c.burst, t))
    ensures Admitted(c, NO_BUCKETS, TwoBursts(c.burst, t), "k", 0.0, t) == 2 * c.burst
  {
    assert c.IdleLimit() > 0.0;
    t := (c.IdleLimit() + c.burst as real) / 2.0;
    TwoBurstsAdmitTwice(c, t);
  }

  /** The bound burst + rate * T holds of every run exactly under the same condition. */
  lemma RateBoundedIff(c: Config)
    requires c.Legal()
    ensures RateBounded(c) <==> c.RefillsBeforeCleanup()
  {
    if c.RefillsBeforeCleanup() {
      forall start, es, key, lo, hi | WellTimed(start, es) && lo <= hi
        ensures Admitted(c, NO_BUCKETS, es, key, lo, hi) as real <= c.burst as real + (hi - lo)
      {
        RateStaysBounded(c, start, es, key, lo, hi);
      }
    } else {
      var t := EarlyEviction(c);
      assert !(Admitted(c, NO_BUCKETS, TwoBursts(c.burst, t), "k", 0.0, t) as real <= c.burst as real + (t - 0.0));
    }
  }

  // ---- Retry-After ------------------------------------------------------

  /** The state in which a refused call leaves the bucket of `key`. */
  predicate Refused(c: Config, table: Table, key: string, now: real) {
    key in table && 0.0 <= table[key].tokens < 1.0 && table[key].last <= now
  }

  /** When the bucket holds a whole token again. */
  function RefillMoment(b: TB.Bucket): real {
    b.last + (1.0 - b.tokens)
  }

  predicate CallsBefore(es: seq<Event>, key: string, moment: real) {
    forall i :: 0 <= i < |es| && CallTo(es[i], key) ==> es[i].at < moment
  }

  predicate AllRefused(answers: seq<bool>) {
    forall i :: 0 <= i < |answers| ==> !answers[i]
  }

  /** After a refusal every call before the refill moment is refused, in every run. */
  ghost predicate RetryHonoured(c: Config) {
    forall table, key, now, es ::
      Refused(c, table, key, now) && WellTimed(now, es) && CallsBefore(es, key, RefillMoment(table[key]))
      ==> AllRefused(Answers(c, table, es, key))
  }

  /** Still short of a token until `moment`, and with one from then on. */
  predicate Waiting(c: Config, table: Table, key: string, moment: real, now: real) {
    || (Refused(c, table, key, now) && RefillMoment(table[key]) == moment)
    || (var g := GetBucket(c, table, key, now);
        moment <= now && TB.Sound(c.burst, g) && g.last <= now && TB.Refill(c.burst, g, now) >= 1.0)
  }

  lemma {:induction false} WaitsUntilRefill(c: Config, table: Table, key: string, moment: real, now: real, es: seq<Event>,
                                            end: real)
    requires c.Legal() && 1.0 <= c.IdleLimit()
    requires WellTimed(now, es + [Call(key, end)]) && CallsBefore(es, key, moment) && Waiting(c, table, key, moment, now)
    ensures AllRefused(Answers(c, table, es, key))
    ensures Waiting(c, ApplyAll(c, table, es), key, moment, end)
    ensures moment <= end ==> Allowed(c, ApplyAll(c, table, es), key, end)
    decreases |es|
  {
    if es == [] {
      assert (es + [Call(key, end)])[0] == Call(key, end);
    } else {
      var e := es[0];
      assert (es + [Call(key, end)])[0] == e && (es + [Call(key, end)])[1..] == es[1..] + [Call(key, end)];
      assert CallTo(e, key) ==> e.at < moment;
      WaitsUntilRefill(c, Apply(c, table, e), key, moment, e.at, es[1..], end);
    }
  }

  /** Refused until the refill moment, admitted from it on, however many
      refused calls, queries, cleanups and calls for other keys come between. */
  lemma RefusedThenAdmitted(c: Config, table: Table, key: string, now: real, es: seq<Event>, end: real)
    requires c.Legal() && 1.0 <= c.IdleLimit()
    requires Refused(c, table, key, now) && WellTimed(now, es + [Call(key, end)])
    requires CallsBefore(es, key, RefillMoment(table[key])) && RefillMoment(table[key]) <= end
    ensures AllRefused(Answers(c, table, es, key))
    ensures Allowed(c, ApplyAll(c, table, es), key, end)
  {
    WaitsUntilRefill(c, table, key, RefillMoment(table[key]), now, es, end);
  }

  /** A refused call does leave the table in that state. */
  lemma RefusalLeavesRefused(c: Config, table: Table, key: string, now: real)
    requires c.Legal() && TB.Sound(c.burst, GetBucket(c, table, key, now)) && GetBucket(c, table, key, now).last <= now
    requires !Allowed(c, table, key, now)
    ensures Refused(c, AfterAllow(c, table, key, now), key, now)
    ensures AfterRetryAfter(c, AfterAllow(c, table, key, now), key, now) == AfterAllow(c, table, key, now)
  {
    assert AfterAllow(c, table, key, now)[key := AfterAllow(c, table, key, now)[key]] == AfterAllow(c, table, key, now);
  }

  lemma {:induction false} TimedThenLater(es: seq<Event>, from: real, key: string) returns (end: real)
    requires WellTimed(from, es)
    ensures WellTimed(from, es + [Call(key, end)])
    decreases |es|
  {
    if es == [] {
      end := from;
    } else {
      end := TimedThenLater(es[1..], es[0].at, key);
      assert (es + [Call(key, end)])[1..] == es[1..] + [Call(key, end)];
    }
  }

  /** The promise of Retry-After is kept in every run exactly when a bucket
      regains one token before the cleanup may delete it. */
  lemma RetryHonouredIff(c: Config)
    requires c.Legal()
    ensures RetryHonoured(c) <==> 1.0 <= c.IdleLimit()
  {
    if 1.0 <= c.IdleLimit() {
      forall table, key, now, es
        | Refused(c, table, key, now) && WellTimed(now, es) && CallsBefore(es, key, RefillMoment(table[key]))
        ensures AllRefused(Answers(c, table, es, key))
      {
        var end := TimedThenLater(es, now, key);
        WaitsUntilRefill(c, table, key, RefillMoment(table[key]), now, es, end);
      }
    } else {
      var table: Table := map["k" := TB.Bucket(0.0, 0.0)];
      assert c.IdleLimit() > 0.0;
      var t := (c.IdleLimit() + 1.0) / 2.0;
      var es := [Sweep("k", t, t), Call("k", t)];
      assert es[1..] == [Call("k", t)];
      assert Refused(c, table, "k", 0.0) && RefillMoment(table["k"]) == 1.0;
      assert WellTimed(0.0, es);
      assert forall i :: 0 <= i < |es| ==> es[i].at == t < 1.0;
      assert CallsBefore(es, "k", 1.0);
      var swept := Apply(c, table, es[0]);
      assert "k" !in swept && Allowed(c, swept, "k", t);
      assert Answers(c, table, es, "k") == Answers(c, swept, es[1..], "k");
      assert Answers(c, swept, es[1..], "k")[0];
    }
  }

  /** Formatting with "%.0f": to the nearest integer, halves to the even one. */
  function RoundHalfEven(x: real): (n: int)
    ensures n as real - 0.5 <= x <= n as real + 0.5
  {
    var below := x.Floor;
    var rest := x - below as real;
    if rest < 0.5 then below
    else if rest > 0.5 then below + 1
    else if below % 2 == 0 then below else below + 1
  }

  /** The Retry-After header, in whole seconds. */
  function RetryAfterHeader(c: Config, tokens: real): int
    requires c.Legal()
  {
    RoundHalfEven(RetryAfterMillis(c, tokens) as real / 1000.0 + 1.0)
  }

  lemma Enough(missing: real, rate: real, wait: real)
    requires rate > 0.0
    ensures wait >= missing / rate ==> Reading(wait, rate) >= missing
    ensures wait <= missing / rate ==> Reading(wait, rate) <= missing
  {
    var exact := missing / rate;
    assert exact * rate == missing;
    assert wait >= exact ==> (wait - exact) * rate >= 0.0;
    assert wait <= exact ==> (exact - wait) * rate >= 0.0;
  }

  /** The truncated duration never passes the refill moment, waiting the seconds of
      the header always reaches it, and neither is off by more than a millisecond and
      a second and a half. */
  lemma RetryAfterBrackets(c: Config, tokens: real)
    requires c.Legal() && 0.0 <= tokens < 1.0
    ensures Reading(RetryAfterMillis(c, tokens) as real / 1000.0, c.rate) <= 1.0 - tokens
    ensures 1.0 - tokens <= Reading(RetryAfterHeader(c, tokens) as real, c.rate)
    ensures (1.0 - tokens) / c.rate - 0.001 < RetryAfterMillis(c, tokens) as real / 1000.0 <= (1.0 - tokens) / c.rate
    ensures RetryAfterHeader(c, tokens) as real <= (1.0 - tokens) / c.rate + 1.5
  {
    var exact := (1.0 - tokens) / c.rate;
    var millis := RetryAfterMillis(c, tokens);
    assert millis as real <= exact * 1000.0 < millis as real + 1.0;
    Enough(1.0 - tokens, c.rate, millis as real / 1000.0);
    Enough(1.0 - tokens, c.rate, RetryAfterHeader(c, tokens) as real);
  }

  /** Without a call for the key, it will find a token from `moment` on: an
      evicted bucket comes back full. */
  predicate Filling(c: Config, table: Table, key: string, moment: real, now: real) {
    key in table ==>
      var b := table[key];
      && TB.Sound(c.burst, b) && b.last <= now
      && (b.tokens >= 1.0 || b.tokens + (moment - b.last) >= 1.0)
  }

  lemma {:induction false} FillsMeanwhile(c: Config, table: Table, key: string, moment: real, now: real, es: seq<Event>)
    requires c.Legal() && WellTimed(now, es) && Filling(c, table, key, moment, now)
    requires forall i :: 0 <= i < |es| ==> !CallTo(es[i], key)
    ensures Filling(c, ApplyAll(c, table, es), key, moment, EndOf(now, es))
    decreases |es|
  {
    if es != [] {
      assert !CallTo(es[0], key);
      FillsMeanwhile(c, Apply(c, table, es[0]), key, moment, es[0].at, es[1..]);
    }
  }

  function EndOf(from: real, es: seq<Event>): real
    decreases |es|
  {
    if es == [] then from else EndOf(es[0].at, es[1..])
  }

  lemma {:induction false} TimedPrefix(es: seq<Event>, e: Event, from: real)
    requires WellTimed(from, es + [e])
    ensures WellTimed(from, es) && EndOf(from, es) <= e.at
    decreases |es|
  {
    if es == [] {
      assert (es + [e])[0] == e;
    } else {
      assert (es + [e])[0] == es[0] && (es + [e])[1..] == es[1..] + [e];
      TimedPrefix(es[1..], e, es[0].at);
    }
  }

  /** Under every setting a client that is refused, waits the seconds of the header
      it got and calls again is admitted, whatever other clients and the cleanup do
      meanwhile. */
  lemma WaitingTheHeaderSuffices(c: Config, table: Table, key: string, now: real, es: seq<Event>, end: real)
    requires c.Legal()
    requires TB.Sound(c.burst, GetBucket(c, table, key, now)) && GetBucket(c, table, key, now).last <= now
    requires !Allowed(c, table, key, now)
    requires WellTimed(now, es + [Call(key, end)]) && forall i :: 0 <= i < |es| ==> !CallTo(es[i], key)
    requires var header := RetryAfterHeader(c, AfterAllow(c, table, key, now)[key].tokens);
      end >= now + Reading(header as real, c.rate)
    ensures Allowed(c, ApplyAll(c, AfterAllow(c, table, key, now), es), key, end)
  {
    RefusalLeavesRefused(c, table, key, now);
    var refused := AfterAllow(c, table, key, now);
    var moment := RefillMoment(refused[key]);
    RetryAfterBrackets(c, refused[key].tokens);
    TimedPrefix(es, Call(key, end), now);
    FillsMeanwhile(c, refused, key, moment, now, es);
  }

  // ---- what the cleanup deletes -----------------------------------------

  predicate AllSound(c: Config, table: Table, now: real) {
    forall k :: k in table ==> TB.Sound(c.burst, table[k]) && table[k].last <= now
  }

  lemma {:induction false} RunKeepsSound(c: Config, table: Table, es: seq<Event>, now: real)
    requires c.Legal() && WellTimed(now, es) && AllSound(c, table, now)
    ensures AllSound(c, ApplyAll(c, table, es), EndOf(now, es))
    decreases |es|
  {
    if es != [] {
      RunKeepsSound(c, Apply(c, table, es[0]), es[1..], es[0].at);
    }
  }

  /** A deletion at `passTime`, after the run `es`, finds a full bucket. */
  predicate DeletesFull(c: Config, es: seq<Event>, key: string, passTime: real) {
    var table := ApplyAll(c, NO_BUCKETS, es);
    key in table && Stale(c, table[key], passTime) ==> TB.Refill(c.burst, table[key], passTime) == c.burst as real
  }

  ghost predicate OnlyFullDeleted(c: Config) {
    forall start, es, key, passTime :: WellTimed(start, es) ==> DeletesFull(c, es, key, passTime)
  }

  lemma {:induction false} BurstDrains(c: Config, table: Table, n: nat, t: real)
    requires c.Legal() && TB.Refill(c.burst, GetBucket(c, table, "k", t), t) >= n as real > 0.0
    ensures "k" in ApplyAll(c, table, BurstOf(n, t))
    ensures ApplyAll(c, table, BurstOf(n, t))["k"]
      == TB.Bucket(TB.Refill(c.burst, GetBucket(c, table, "k", t), t) - n as real, t)
    decreases n
  {
    var next := AfterAllow(c, table, "k", t);
    assert BurstOf(n, t)[0] == Call("k", t) && BurstOf(n, t)[1..] == BurstOf(n - 1, t);
    if n > 1 {
      BurstDrains(c, next, n - 1, t);
    }
  }

  /** The cleanup deletes only buckets that are full again exactly when they
      refill within the idle limit. */
  lemma OnlyFullDeletedIff(c: Config)
    requires c.Legal()
    ensures OnlyFullDeleted(c) <==> c.RefillsBeforeCleanup()
  {
    if c.RefillsBeforeCleanup() {
      forall start, es, key, passTime | WellTimed(start, es)
        ensures DeletesFull(c, es, key, passTime)
      {
        RunKeepsSound(c, NO_BUCKETS, es, start);
      }
    } else {
      var t := EarlyEviction(c);
      BurstDrains(c, NO_BUCKETS, c.burst, 0.0);
      BurstIsWellTimed(c.burst, 0.0, 0.0, []);
      assert BurstOf(c.burst, 0.0) + [] == BurstOf(c.burst, 0.0);
      assert !DeletesFull(c, BurstOf(c.burst, 0.0), "k", t);
    }
  }

  // ---- in seconds and calls per minute ----------------------------------

  /** A run whose times are seconds, on the clock in tokens. */
  function InTokens(es: seq<Event>, rate: real): seq<Event> {
    if es == [] then []
    else
      var e := match es[0]
        case Call(k, t) => Call(k, Reading(t, rate))
        case Ask(k, t) => Ask(k, Reading(t, rate))
        case Sweep(k, p, t) => Sweep(k, Reading(p, rate), Reading(t, rate));
      [e] + InTokens(es[1..], rate)
  }

  lemma ScaleOrder(x: real, y: real, rate: real)
    requires x <= y && rate > 0.0
    ensures Reading(x, rate) <= Reading(y, rate)
  {
    assert (y - x) * rate >= 0.0;
  }

  lemma {:induction false} InTokensTimed(es: seq<Event>, rate: real, from: real)
    requires rate > 0.0 && WellTimed(from, es)
    ensures WellTimed(Reading(from, rate), InTokens(es, rate))
    decreases |es|
  {
    if es != [] {
      ScaleOrder(from, es[0].at, rate);
      if es[0].Sweep? {
        ScaleOrder(es[0].passTime, es[0].at, rate);
      }
      InTokensTimed(es[1..], rate, es[0].at);
      assert InTokens(es, rate)[1..] == InTokens(es[1..], rate);
    }
  }

  /** Calls for a key that a limiter made with these arguments admits at a time in
      [lo, hi], all times in seconds. */
  function AdmittedBySettings(ratePerMinute: real, burst: int, es: seq<Event>, key: string, lo: real, hi: real): nat {
    var c := NewConfig(ratePerMinute, burst);
    Admitted(c, NO_BUCKETS, InTokens(es, c.rate), key, Reading(lo, c.rate), Reading(hi, c.rate))
  }

  lemma PerMinute(seconds: real, rate: real, ratePerMinute: real)
    requires rate * 60.0 == ratePerMinute
    ensures seconds * rate == ratePerMinute * (seconds / 60.0)
  {
    var minutes := seconds / 60.0;
    assert seconds == minutes * 60.0;
    assert (minutes * 60.0) * rate == minutes * (rate * 60.0);
  }

  lemma BoundInSeconds(lo: real, hi: real, rate: real, ratePerMinute: real)
    requires rate * 60.0 == ratePerMinute
    ensures Reading(hi, rate) - Reading(lo, rate) == ratePerMinute * ((hi - lo) / 60.0)
  {
    Elapsed(lo, hi, rate);
    PerMinute(hi - lo, rate, ratePerMinute);
  }

  lemma IdleLimitOf(ratePerMinute: real, burst: int)
    requires ratePerMinute > 0.0
    ensures NewConfig(ratePerMinute, burst).IdleLimit() == 20.0 * ratePerMinute
  {
    var c := NewConfig(ratePerMinute, burst);
    assert c.IdleLimit() == 2.0 * 600.0 * c.rate;
  }

  /** As configured, with positive arguments: a burst of at most twenty minutes' worth
      of calls keeps every interval within the burst and the rate per minute. */
  lemma SettingsBound(ratePerMinute: real, burst: int, start: real, es: seq<Event>, key: string, lo: real, hi: real)
    requires ratePerMinute > 0.0 && 0 < burst && burst as real <= 20.0 * ratePerMinute
    requires WellTimed(start, es) && lo <= hi
    ensures AdmittedBySettings(ratePerMinute, burst, es, key, lo, hi) as real
      <= burst as real + ratePerMinute * ((hi - lo) / 60.0)
  {
    var c := NewConfig(ratePerMinute, burst);
    var from, to := Reading(lo, c.rate), Reading(hi, c.rate);
    InTokensTimed(es, c.rate, start);
    ScaleOrder(lo, hi, c.rate);
    IdleLimitOf(ratePerMinute, burst);
    RateStaysBounded(c, Reading(start, c.rate), InTokens(es, c.rate), key, from, to);
    BoundInSeconds(lo, hi, c.rate, ratePerMinute);
  }

  /** And with a larger burst some run exceeds it. */
  lemma SettingsBoundedIff(ratePerMinute: real, burst: int)
    requires ratePerMinute > 0.0 && burst > 0
    ensures RateBounded(NewConfig(ratePerMinute, burst)) <==> burst as real <= 20.0 * ratePerMinute
  {
    IdleLimitOf(ratePerMinute, burst);
    RateBoundedIff(NewConfig(ratePerMinute, burst));
  }
}
