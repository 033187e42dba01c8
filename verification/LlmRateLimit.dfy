/**
  The per-user rate limiter of the LLM gateway (internal/gateway/llm.go).
  The class works in minutes and tokens per minute; its contents and the runs
  read the clock in tokens (minutes times the rate), as in TokenBucket.
*/
module LlmRateLimit {
  import TB = TokenBucket

  const DEFAULT_RATE := 60.0

  /** The rate NewLLMGateway hands to its limiter. */
  function GatewayRate(configured: real): (rate: real)
    ensures rate > 0.0 && rate == if configured > 0.0 then configured else 60.0
  {
    if configured <= 0.0 then DEFAULT_RATE else configured
  }

  /** The burst: the rate per minute truncated to an integer. */
  function Capacity(rate: real): (capacity: int)
    ensures rate >= 0.0 ==> capacity as real <= rate < capacity as real + 1.0
    ensures rate < 0.0 ==> capacity as real - 1.0 < rate <= capacity as real
  {
    if rate >= 0.0 then rate.Floor else -((-rate).Floor)
  }

  type Table = map<int, TB.Bucket>

  const NO_BUCKETS: Table := map[]

  function Reading(minutes: real, rate: real): real {
    minutes * rate
  }

  /** A user without a bucket is admitted without looking at the capacity. */
  predicate Allowed(capacity: int, table: Table, user: int, now: real) {
    user in table ==> TB.Admits(capacity, table[user], now)
  }

  function AfterAllow(capacity: int, table: Table, user: int, now: real): Table {
    table[user := if user in table then TB.AfterCall(capacity, table[user], now)
                  else TB.Bucket(capacity as real - 1.0, now)]
  }

  class Bucket {
    var tokens: real
    var lastTime: real

    constructor (tokens: real, now: real)
      ensures this.tokens == tokens && lastTime == now
    {
      this.tokens := tokens;
      lastTime := now;
    }

    function State(rate: real): TB.Bucket
      reads this
    {
      TB.Bucket(tokens, Reading(lastTime, rate))
    }
  }

  class RateLimiterMap {
    const rate: real
    const capacity: int
    var buckets: map<int, Bucket>

    ghost predicate Valid()
      reads this
    {
      && capacity == Capacity(rate)
      && (forall u, v :: u in buckets && v in buckets && u != v ==> buckets[u] != buckets[v])
    }

    ghost function Contents(): Table
      reads this, buckets.Values
    {
      map u | u in buckets :: buckets[u].State(rate)
    }

    constructor (ratePerMinute: real)
      ensures Valid() && rate == ratePerMinute && capacity == Capacity(ratePerMinute) && Contents() == NO_BUCKETS
    {
      rate := ratePerMinute;
      capacity := Capacity(ratePerMinute);
      buckets := map[];
    }

    method allow(user: int, now: real) returns (ok: bool)
      requires Valid()
      modifies this, buckets.Values
      ensures Valid()
      ensures ok == Allowed(capacity, old(Contents()), user, Reading(now, rate))
      ensures Contents() == AfterAllow(capacity, old(Contents()), user, Reading(now, rate))
      ensures user in old(buckets) ==>
          var credited := old(buckets[user].tokens) + (now - old(buckets[user].lastTime)) * rate;
          ok == ((if credited > capacity as real then capacity as real else credited) >= 1.0)
      ensures user !in old(buckets) ==> ok
    {
      if user !in buckets {
        var first := new Bucket(capacity as real - 1.0, now);
        buckets := buckets[user := first];
        return true;
      }
      var bucket := buckets[user];
      var elapsed := now - bucket.lastTime;
      assert elapsed * rate == Reading(now, rate) - Reading(bucket.lastTime, rate);
      bucket.tokens := bucket.tokens + elapsed * rate;
      if bucket.tokens > capacity as real {
        bucket.tokens := capacity as real;
      }
      bucket.lastTime := now;
      ok := bucket.tokens >= 1.0;
      if ok {
        bucket.tokens := bucket.tokens - 1.0;
      }
      assert bucket.State(rate) == TB.AfterCall(capacity, old(Contents())[user], Reading(now, rate));
      assert forall u :: u in buckets && u != user ==> buckets[u].State(rate) == old(Contents())[u];
    }
  }

  // ---- runs -------------------------------------------------------------

  datatype Call = Call(user: int, at: real)

  predicate WellTimed(from: real, calls: seq<Call>)
    decreases |calls|
  {
    calls == [] || (from <= calls[0].at && WellTimed(calls[0].at, calls[1..]))
  }

  function Answers(capacity: int, table: Table, calls: seq<Call>, user: int): seq<bool>
    decreases |calls|
  {
    if calls == [] then []
    else
      var rest := Answers(capacity, AfterAllow(capacity, table, calls[0].user, calls[0].at), calls[1..], user);
      if calls[0].user == user then [Allowed(capacity, table, user, calls[0].at)] + rest else rest
  }

  function Times(calls: seq<Call>, user: int): seq<real> {
    if calls == [] then []
    else if calls[0].user == user then [calls[0].at] + Times(calls[1..], user)
    else Times(calls[1..], user)
  }

  lemma {:induction false} OneAnswerPerCall(capacity: int, table: Table, calls: seq<Call>, user: int)
    ensures |Answers(capacity, table, calls, user)| == |Times(calls, user)|
    decreases |calls|
  {
    if calls != [] {
      OneAnswerPerCall(capacity, AfterAllow(capacity, table, calls[0].user, calls[0].at), calls[1..], user);
    }
  }

  lemma {:induction false} TimesAreSorted(calls: seq<Call>, user: int, from: real)
    requires WellTimed(from, calls)
    ensures TB.Sorted(from, Times(calls, user))
    decreases |calls|
  {
    if calls != [] {
      TimesAreSorted(calls[1..], user, calls[0].at);
      if calls[0].user == user {
        assert Times(calls, user)[1..] == Times(calls[1..], user);
      }
    }
  }

  /** A missing bucket stands for a full one. */
  predicate Agree(capacity: int, table: Table, user: int, b: TB.Bucket, now: real) {
    && b.last <= now && TB.Sound(capacity, b)
    && if user in table then table[user] == b else TB.Refill(capacity, b, now) == capacity as real
  }

  lemma {:induction false} Refines(capacity: int, table: Table, calls: seq<Call>, user: int, b: TB.Bucket, now: real)
    requires capacity >= 1 && WellTimed(now, calls) && Agree(capacity, table, user, b, now)
    ensures Answers(capacity, table, calls, user) == TB.Ideal(capacity, b, Times(calls, user))
    decreases |calls|
  {
    if calls != [] {
      var t := calls[0].at;
      var next := AfterAllow(capacity, table, calls[0].user, t);
      if calls[0].user == user {
        Refines(capacity, next, calls[1..], user, TB.AfterCall(capacity, b, t), t);
        assert Times(calls, user)[1..] == Times(calls[1..], user);
      } else {
        Refines(capacity, next, calls[1..], user, b, t);
      }
    }
  }

  /** With a capacity of at least one, every user is answered as by one
      undisturbed bucket: the same one that serves a key of the API limiter. */
  lemma MatchesTokenBucket(capacity: int, start: real, calls: seq<Call>, user: int)
    requires capacity >= 1 && WellTimed(start, calls)
    ensures Answers(capacity, NO_BUCKETS, calls, user)
      == TB.Ideal(capacity, TB.Full(capacity, start), Times(calls, user))
  {
    Refines(capacity, NO_BUCKETS, calls, user, TB.Full(capacity, start), start);
  }

  /** Exact admission rule: refused only when some window would exceed capacity + T. */
  lemma RefusesOnlyToKeepTheBound(capacity: int, start: real, calls: seq<Call>, user: int, i: nat)
    requires capacity >= 1 && WellTimed(start, calls) && i < |Times(calls, user)|
    ensures |Answers(capacity, NO_BUCKETS, calls, user)| == |Times(calls, user)|
    ensures Answers(capacity, NO_BUCKETS, calls, user)[i] <==> forall j: nat :: j <= i ==>
      TB.RoomFor(capacity, Times(calls, user), Answers(capacity, NO_BUCKETS, calls, user), j, i)
  {
    MatchesTokenBucket(capacity, start, calls, user);
    TimesAreSorted(calls, user, start);
    TB.AdmitsIffBoundKept(capacity, start, Times(calls, user), i);
  }

  predicate WithinBound(capacity: int, calls: seq<Call>, user: int, lo: real, hi: real) {
    OneAnswerPerCall(capacity, NO_BUCKETS, calls, user);
    TB.AdmittedIn(Answers(capacity, NO_BUCKETS, calls, user), Times(calls, user), lo, hi) as real
      <= capacity as real + (hi - lo)
  }

  ghost predicate RateBounded(capacity: int) {
    forall start, calls, user, lo, hi :: WellTimed(start, calls) && lo <= hi ==>
      WithinBound(capacity, calls, user, lo, hi)
  }

  /** The bound capacity + rate * T holds of every run exactly when the rate is
      at least one per minute. */
  lemma RateBoundedIff(rate: real)
    requires rate > 0.0
    ensures RateBounded(Capacity(rate)) <==> rate >= 1.0
  {
    var capacity := Capacity(rate);
    if rate >= 1.0 {
      forall start, calls, user, lo, hi | WellTimed(start, calls) && lo <= hi
        ensures WithinBound(capacity, calls, user, lo, hi)
      {
        MatchesTokenBucket(capacity, start, calls, user);
        TimesAreSorted(calls, user, start);
        TB.WindowBound(capacity, TB.Full(capacity, start), Times(calls, user), lo, hi);
      }
    } else {
      var calls := [Call(1, 0.0)];
      assert WellTimed(0.0, calls);
      assert Times(calls, 1) == [0.0];
      assert Answers(capacity, NO_BUCKETS, calls, 1) == [true];
      assert !WithinBound(capacity, calls, 1, 0.0, 0.0);
    }
  }

  predicate Spent(table: Table, user: int) {
    user in table && table[user].tokens <= 0.0
  }

  lemma {:induction false} SpentStaysRefused(table: Table, calls: seq<Call>, user: int)
    requires Spent(table, user)
    ensures forall i :: 0 <= i < |Answers(0, table, calls, user)| ==> !Answers(0, table, calls, user)[i]
    decreases |calls|
  {
    if calls != [] {
      SpentStaysRefused(AfterAllow(0, table, calls[0].user, calls[0].at), calls[1..], user);
    }
  }

  predicate OnlyFirst(answers: seq<bool>) {
    forall i :: 0 <= i < |answers| ==> answers[i] == (i == 0)
  }

  /** Below one per minute each user is admitted once, the first time, and never again. */
  lemma {:induction false} SlowRateAdmitsOnce(rate: real, table: Table, calls: seq<Call>, user: int)
    requires 0.0 < rate < 1.0 && user !in table
    ensures OnlyFirst(Answers(Capacity(rate), table, calls, user))
    decreases |calls|
  {
    assert Capacity(rate) == 0;
    if calls != [] {
      var next := AfterAllow(0, table, calls[0].user, calls[0].at);
      if calls[0].user == user {
        SpentStaysRefused(next, calls[1..], user);
      } else {
        SlowRateAdmitsOnce(rate, next, calls[1..], user);
      }
    }
  }

  // ---- in minutes -------------------------------------------------------

  /** A run whose times are minutes, on the clock in tokens. */
  function InTokens(calls: seq<Call>, rate: real): seq<Call> {
    if calls == [] then [] else [Call(calls[0].user, Reading(calls[0].at, rate))] + InTokens(calls[1..], rate)
  }

  lemma ScaleOrder(x: real, y: real, rate: real)
    requires x <= y && rate > 0.0
    ensures Reading(x, rate) <= Reading(y, rate)
  {
    assert (y - x) * rate >= 0.0;
  }

  lemma Elapsed(since: real, now: real, rate: real)
    ensures Reading(now, rate) - Reading(since, rate) == rate * (now - since)
  {
  }

  lemma {:induction false} InTokensTimed(calls: seq<Call>, rate: real, from: real)
    requires rate > 0.0 && WellTimed(from, calls)
    ensures WellTimed(Reading(from, rate), InTokens(calls, rate))
    decreases |calls|
  {
    if calls != [] {
      ScaleOrder(from, calls[0].at, rate);
      InTokensTimed(calls[1..], rate, calls[0].at);
      assert InTokens(calls, rate)[1..] == InTokens(calls[1..], rate);
    }
  }

  /** Calls of a user that a limiter with this rate per minute admits in [lo, hi],
      all times in minutes. */
  function AdmittedByRate(rate: real, calls: seq<Call>, user: int, lo: real, hi: real): nat {
    OneAnswerPerCall(Capacity(rate), NO_BUCKETS, InTokens(calls, rate), user);
    TB.AdmittedIn(Answers(Capacity(rate), NO_BUCKETS, InTokens(calls, rate), user), Times(InTokens(calls, rate), user),
                  Reading(lo, rate), Reading(hi, rate))
  }

  /** At one per minute or more, every interval stays within one minute's worth of
      calls and the rate. */
  lemma BoundInMinutes(rate: real, start: real, calls: seq<Call>, user: int, lo: real, hi: real)
    requires rate >= 1.0 && WellTimed(start, calls) && lo <= hi
    ensures AdmittedByRate(rate, calls, user, lo, hi) as real <= rate + rate * (hi - lo)
  {
    var capacity, tokens := Capacity(rate), InTokens(calls, rate);
    InTokensTimed(calls, rate, start);
    ScaleOrder(lo, hi, rate);
    Elapsed(lo, hi, rate);
    MatchesTokenBucket(capacity, Reading(start, rate), tokens, user);
    TimesAreSorted(tokens, user, Reading(start, rate));
    TB.WindowBound(capacity, TB.Full(capacity, Reading(start, rate)), Times(tokens, user), Reading(lo, rate), Reading(hi, rate));
  }
}
